/**
 * The effect scheduler: running a callback, collecting its cleanups and subscriptions,
 * debouncing its triggers, and stopping. What the callback itself does is a script given
 * with the event that runs it; time is the instant of the event.
 */
module WatchEffect {
  import opened Wrappers

  type Cleanup = nat
  type Dep = nat

  datatype Debounce = Debounce(wait: nat, leading: bool, trailing: bool)

  datatype Options = Options(debounce: Option<Debounce>, flushPost: bool)

  /** What a callback does to its effect while it runs. */
  datatype Action = Register(cleanup: Cleanup) | StopSelf | PauseSelf

  datatype Ending = Returns | Suspends | Throws

  datatype Body = Body(actions: seq<Action>, deps: seq<Dep>, ending: Ending)

  /**
   * The closure's variables, how many microtasks it has queued that have not run, and three
   * logs: cleanups in the order they were registered and in the
   * order they ran, and the instants at which the callback was run.
   */
  datatype State = State(
    isActive: bool,
    isPaused: bool,
    isScheduled: bool,
    queued: nat,
    timer: Option<int>,
    sawTrigger: bool,
    cleanups: seq<Cleanup>,
    subscriptions: seq<Dep>,
    generation: nat,
    registered: seq<Cleanup>,
    ran: seq<Cleanup>,
    runs: seq<int>)

  const INITIAL := State(true, false, false, 0, None, false, [], [], 0, [], [], [])

  function RunCleanups(s: State): State {
    s.(cleanups := [], ran := s.ran + s.cleanups)
  }

  function OnCleanup(s: State, generation: nat, c: Cleanup): State {
    var noted := s.(registered := s.registered + [c]);
    if !s.isActive || generation != s.generation then noted.(ran := s.ran + [c])
    else noted.(cleanups := s.cleanups + [c])
  }

  function Stop(s: State): State {
    RunCleanups(s).(isActive := false, subscriptions := [], timer := None, sawTrigger := false)
  }

  function Act(s: State, generation: nat, a: Action): State {
    match a
    case Register(c) => OnCleanup(s, generation, c)
    case StopSelf => Stop(s)
    case PauseSelf => s.(isPaused := true)
  }

  function ActAll(s: State, generation: nat, actions: seq<Action>): State
    decreases |actions|
  {
    if actions == [] then s else ActAll(Act(s, generation, actions[0]), generation, actions[1..])
  }

  /** One run of the callback; the flag says whether it threw to the caller. */
  function Execute(s: State, body: Body, now: int): (State, bool) {
    if !s.isActive || s.isPaused then (s, false)
    else
      var begun := RunCleanups(s).(isScheduled := false, generation := s.generation + 1, subscriptions := [],
                                   runs := s.runs + [now]);
      var acted := ActAll(begun, begun.generation, body.actions);
      if body.ending.Throws? then (RunCleanups(acted), true)
      else (if acted.isActive then acted.(subscriptions := acted.subscriptions + body.deps) else acted, false)
  }

  function ScheduleDebounced(s: State, d: Debounce, body: Body, now: int): (State, bool) {
    var (led, threw) := if s.timer.None? && d.leading then Execute(s, body, now) else (s, false);
    if threw then (led, true)
    else
      (led.(sawTrigger := if s.timer.Some? then true else led.sawTrigger,
            isScheduled := true,
            timer := Some(now + d.wait)), false)
  }

  function ScheduleRun(o: Options, s: State, body: Body, now: int): (State, bool) {
    if !s.isActive || s.isPaused then (s, false)
    else if o.debounce.Some? then ScheduleDebounced(s, o.debounce.value, body, now)
    else if s.isScheduled then (s, false)
    else if o.flushPost then (s.(isScheduled := true, queued := s.queued + 1), false)
    else Execute(s, body, now)
  }

  /** The timer callback of the debounce window. */
  function TimerFires(s: State, d: Debounce, body: Body, now: int): (State, bool) {
    var fire := d.trailing && (!d.leading || s.sawTrigger);
    var closed := s.(timer := None, isScheduled := false, sawTrigger := false);
    if fire then Execute(closed, body, now) else (closed, false)
  }

  /** A queued microtask runs the callback. */
  function MicrotaskRuns(s: State, body: Body, now: int): (State, bool)
    requires s.queued > 0
  {
    Execute(s.(queued := s.queued - 1), body, now)
  }

  function Resume(s: State, body: Body, now: int): (State, bool) {
    Execute(s.(isPaused := false), body, now)
  }

  // ---------------------------------------------------------------------------------------
  // The handle

  class Effect {
    const options: Options
    var isActive: bool
    var isPaused: bool
    var isScheduled: bool
    var queued: nat
    var timer: Option<int>
    var sawTriggerDuringWait: bool
    var cleanupFns: seq<Cleanup>
    var subscriptions: seq<Dep>
    var executionGeneration: nat
    var registered: seq<Cleanup>
    var ran: seq<Cleanup>
    var runs: seq<int>

    ghost function Now(): State
      reads this
    {
      State(isActive, isPaused, isScheduled, queued, timer, sawTriggerDuringWait, cleanupFns, subscriptions,
            executionGeneration, registered, ran, runs)
    }

    constructor (options: Options)
      ensures this.options == options && Now() == INITIAL
    {
      this.options := options;
      isActive, isPaused, isScheduled := true, false, false;
      queued, timer, sawTriggerDuringWait := 0, None, false;
      cleanupFns, subscriptions, executionGeneration := [], [], 0;
      registered, ran, runs := [], [], [];
    }

    method FlushCleanups()
      modifies this
      ensures Now() == RunCleanups(old(Now()))
    {
      for i := 0 to |cleanupFns|
        invariant ran == old(ran) + old(cleanupFns)[..i]
        invariant Now() == old(Now()).(ran := ran)
      {
        ran := ran + [cleanupFns[i]];
        assert old(cleanupFns)[..i + 1] == old(cleanupFns)[..i] + [old(cleanupFns)[i]];
      }
      assert old(cleanupFns)[..|old(cleanupFns)|] == old(cleanupFns);
      cleanupFns := [];
    }

    method AddCleanup(generation: nat, c: Cleanup)
      modifies this
      ensures Now() == OnCleanup(old(Now()), generation, c)
    {
      registered := registered + [c];
      if !isActive || generation != executionGeneration {
        ran := ran + [c];
        return;
      }
      cleanupFns := cleanupFns + [c];
    }

    method StopEffect()
      modifies this
      ensures Now() == Stop(old(Now()))
    {
      isActive := false;
      FlushCleanups();
      subscriptions := [];
      timer := None;
      sawTriggerDuringWait := false;
    }

    method RunOnce(body: Body, now: int) returns (threw: bool)
      modifies this
      ensures (Now(), threw) == Execute(old(Now()), body, now)
    {
      if !isActive || isPaused {
        return false;
      }
      isScheduled := false;
      executionGeneration := executionGeneration + 1;
      var generation := executionGeneration;
      FlushCleanups();
      subscriptions := [];
      runs := runs + [now];
      ghost var begun := Now();
      for i := 0 to |body.actions|
        invariant ActAll(Now(), generation, body.actions[i..]) == ActAll(begun, generation, body.actions)
      {
        assert body.actions[i..][1..] == body.actions[i + 1..];
        match body.actions[i]
        case Register(c) => AddCleanup(generation, c);
        case StopSelf => StopEffect();
        case PauseSelf => isPaused := true;
      }
      if body.ending.Throws? {
        FlushCleanups();
        return true;
      }
      if isActive {
        subscriptions := subscriptions + body.deps;
      }
      return false;
    }

    method Trigger(body: Body, now: int) returns (threw: bool)
      modifies this
      ensures (Now(), threw) == ScheduleRun(options, old(Now()), body, now)
    {
      if !isActive || isPaused {
        return false;
      }
      if options.debounce.Some? {
        threw := Debounced(options.debounce.value, body, now);
        return;
      }
      if isScheduled {
        return false;
      }
      if options.flushPost {
        isScheduled, queued := true, queued + 1;
        return false;
      }
      threw := RunOnce(body, now);
    }

    method Debounced(d: Debounce, body: Body, now: int) returns (threw: bool)
      modifies this
      ensures (Now(), threw) == ScheduleDebounced(old(Now()), d, body, now)
    {
      if timer.None? {
        if d.leading {
          threw := RunOnce(body, now);
          if threw {
            return;
          }
        }
      } else {
        sawTriggerDuringWait := true;
      }
      isScheduled := true;
      timer := Some(now + d.wait);
      return false;
    }

    method TimerDue(d: Debounce, body: Body, now: int) returns (threw: bool)
      modifies this
      ensures (Now(), threw) == TimerFires(old(Now()), d, body, now)
    {
      timer := None;
      isScheduled := false;
      var fireTrailing := d.trailing && (!d.leading || sawTriggerDuringWait);
      sawTriggerDuringWait := false;
      if fireTrailing {
        threw := RunOnce(body, now);
        return;
      }
      return false;
    }

    method MicrotaskDue(body: Body, now: int) returns (threw: bool)
      requires queued > 0
      modifies this
      ensures (Now(), threw) == MicrotaskRuns(old(Now()), body, now)
    {
      queued := queued - 1;
      threw := RunOnce(body, now);
    }

    method Pause()
      modifies this
      ensures Now() == old(Now()).(isPaused := true)
    {
      isPaused := true;
    }

    method ResumeEffect(body: Body, now: int) returns (threw: bool)
      modifies this
      ensures (Now(), threw) == Resume(old(Now()), body, now)
    {
      isPaused := false;
      threw := RunOnce(body, now);
    }
  }

  // ---------------------------------------------------------------------------------------
  // Runs

  /** What can happen to an effect. Unless it is not immediate, its creation is followed by a `Resumed`. */
  datatype Event =
    | Triggered(body: Body, at: int)
    | TimerDue(body: Body, at: int)
    | Microtask(body: Body, at: int)
    | Stopped
    | Paused
    | Resumed(body: Body, at: int)
    | Late(generation: nat, cleanup: Cleanup)

  function Next(o: Options, s: State, e: Event): State {
    match e
    case Triggered(body, at) => ScheduleRun(o, s, body, at).0
    case TimerDue(body, at) =>
      if o.debounce.Some? && s.timer.Some? then TimerFires(s, o.debounce.value, body, at).0 else s
    case Microtask(body, at) => if s.queued > 0 then MicrotaskRuns(s, body, at).0 else s
    case Stopped => Stop(s)
    case Paused => s.(isPaused := true)
    case Resumed(body, at) => Resume(s, body, at).0
    case Late(generation, c) => OnCleanup(s, generation, c)
  }

  function Run(o: Options, s: State, events: seq<Event>): State
    decreases |events|
  {
    if events == [] then s else Run(o, Next(o, s, events[0]), events[1..])
  }

  /** Every registered cleanup has run once or is waiting once; a stopped effect holds nothing. */
  ghost predicate Balanced(s: State) {
    && multiset(s.registered) == multiset(s.ran) + multiset(s.cleanups)
    && (!s.isActive ==> s.cleanups == [] && s.subscriptions == [])
  }

  lemma ActBalanced(s: State, generation: nat, a: Action)
    requires Balanced(s) && s.subscriptions == []
    ensures var s' := Act(s, generation, a);
            Balanced(s') && s'.subscriptions == [] && s'.runs == s.runs
  {
    match a
    case Register(c) => LateBalanced(s, generation, c);
    case StopSelf => StopBalanced(s);
    case PauseSelf =>
  }

  lemma {:induction false} ActAllBalanced(s: State, generation: nat, actions: seq<Action>)
    requires Balanced(s) && s.subscriptions == []
    ensures var s' := ActAll(s, generation, actions);
            Balanced(s') && s'.subscriptions == [] && s'.runs == s.runs
    decreases |actions|
  {
    if actions != [] {
      ActBalanced(s, generation, actions[0]);
      hide Act, Balanced;
      ActAllBalanced(Act(s, generation, actions[0]), generation, actions[1..]);
    }
  }

  lemma ExecuteBalanced(s: State, body: Body, now: int)
    requires Balanced(s)
    ensures Balanced(Execute(s, body, now).0)
  {
    if s.isActive && !s.isPaused {
      var begun := RunCleanups(s).(isScheduled := false, generation := s.generation + 1, subscriptions := [],
                                   runs := s.runs + [now]);
      ActAllBalanced(begun, begun.generation, body.actions);
    }
  }

  /** The scheduling flags do not matter for the balance. */
  lemma FlagsBalanced(s: State, paused: bool, scheduled: bool, timer: Option<int>, saw: bool)
    requires Balanced(s)
    ensures Balanced(s.(isPaused := paused, isScheduled := scheduled, timer := timer, sawTrigger := saw))
  {
  }

  lemma QueueBalanced(s: State, queued: nat)
    requires Balanced(s)
    ensures Balanced(s.(queued := queued))
  {
  }

  lemma ScheduleBalanced(o: Options, s: State, body: Body, now: int)
    requires Balanced(s)
    ensures Balanced(ScheduleRun(o, s, body, now).0)
  {
    ExecuteBalanced(s, body, now);
    hide Execute, Balanced;
    var led := Execute(s, body, now).0;
    if o.debounce.Some? {
      var next := ScheduleDebounced(s, o.debounce.value, body, now).0;
      FlagsBalanced(s, s.isPaused, next.isScheduled, next.timer, next.sawTrigger);
      FlagsBalanced(led, led.isPaused, next.isScheduled, next.timer, next.sawTrigger);
    } else {
      FlagsBalanced(s, s.isPaused, true, s.timer, s.sawTrigger);
      QueueBalanced(s.(isScheduled := true), s.queued + 1);
    }
  }

  lemma TimerBalanced(s: State, d: Debounce, body: Body, now: int)
    requires Balanced(s)
    ensures Balanced(TimerFires(s, d, body, now).0)
  {
    FlagsBalanced(s, s.isPaused, false, None, false);
    ExecuteBalanced(s.(timer := None, isScheduled := false, sawTrigger := false), body, now);
  }

  lemma StopBalanced(s: State)
    requires Balanced(s)
    ensures Balanced(Stop(s))
  {
  }

  lemma LateBalanced(s: State, generation: nat, c: Cleanup)
    requires Balanced(s)
    ensures Balanced(OnCleanup(s, generation, c))
  {
  }

  lemma NextBalanced(o: Options, s: State, e: Event)
    requires Balanced(s)
    ensures Balanced(Next(o, s, e))
  {
    hide Execute, Stop, OnCleanup, Balanced, ScheduleRun, TimerFires;
    match e
    case Triggered(body, at) => ScheduleBalanced(o, s, body, at);
    case TimerDue(body, at) =>
      if o.debounce.Some? {
        TimerBalanced(s, o.debounce.value, body, at);
      }
    case Microtask(body, at) =>
      if s.queued > 0 {
        QueueBalanced(s, s.queued - 1);
        ExecuteBalanced(s.(queued := s.queued - 1), body, at);
      }
    case Resumed(body, at) =>
      FlagsBalanced(s, false, s.isScheduled, s.timer, s.sawTrigger);
      ExecuteBalanced(s.(isPaused := false), body, at);
    case Stopped => StopBalanced(s);
    case Paused => FlagsBalanced(s, true, s.isScheduled, s.timer, s.sawTrigger);
    case Late(generation, c) => LateBalanced(s, generation, c);
  }

  lemma {:induction false} RunBalanced(o: Options, s: State, events: seq<Event>)
    requires Balanced(s)
    ensures Balanced(Run(o, s, events))
    decreases |events|
  {
    if events != [] {
      NextBalanced(o, s, events[0]);
      RunBalanced(o, Next(o, s, events[0]), events[1..]);
    }
  }

  /** A stopped effect runs nothing more; a timer it still has goes when it fires, and none is set. */
  lemma {:induction false} StaysStopped(o: Options, s: State, events: seq<Event>)
    requires !s.isActive
    ensures !Run(o, s, events).isActive && Run(o, s, events).runs == s.runs
    ensures s.timer.None? || (o.debounce.Some? && exists i :: 0 <= i < |events| && events[i].TimerDue?) ==>
              Run(o, s, events).timer.None?
    decreases |events|
  {
    if events != [] {
      StaysStopped(o, Next(o, s, events[0]), events[1..]);
      if i :| 0 <= i < |events| && events[i].TimerDue? {
        assert i > 0 ==> events[1..][i - 1].TimerDue?;
      }
    }
  }

  lemma {:induction false} ActAllStops(s: State, generation: nat, actions: seq<Action>)
    ensures var s' := ActAll(s, generation, actions);
            && (s'.isActive <==> s.isActive && StopSelf !in actions)
            && s'.timer == (if StopSelf in actions then None else s.timer)
    decreases |actions|
  {
    if actions != [] {
      ActAllStops(Act(s, generation, actions[0]), generation, actions[1..]);
      assert actions == [actions[0]] + actions[1..];
    }
  }

  lemma ExecuteStops(s: State, body: Body, now: int)
    requires s.isActive
    ensures var (s', threw) := Execute(s, body, now);
            var stops := !s.isPaused && StopSelf in body.actions;
            && (s'.isActive <==> !stops) && s'.timer == (if stops then None else s.timer)
            && (threw <==> !s.isPaused && body.ending.Throws?)
  {
    var begun := RunCleanups(s).(isScheduled := false, generation := s.generation + 1, subscriptions := [],
                                 runs := s.runs + [now]);
    ActAllStops(begun, begun.generation, body.actions);
  }

  /** A trigger whose leading run stops the effect from inside and then returns normally. */
  predicate LeadsIntoStop(o: Options, s: State, e: Event) {
    && e.Triggered? && o.debounce.Some? && o.debounce.value.leading
    && s.timer.None? && !s.isPaused && !e.body.ending.Throws? && StopSelf in e.body.actions
  }

  /** Of all events that stop an effect, exactly such a trigger leaves a timer behind. */
  lemma StopLeavesTimerExactly(o: Options, s: State, e: Event)
    requires s.isActive && !Next(o, s, e).isActive
    ensures Next(o, s, e).timer.Some? <==> LeadsIntoStop(o, s, e)
  {
    if e.Triggered? || e.TimerDue? || e.Microtask? || e.Resumed? {
      ExecuteStops(s, e.body, e.at);
      ExecuteStops(s.(isPaused := false), e.body, e.at);
      if s.queued > 0 {
        ExecuteStops(s.(queued := s.queued - 1), e.body, e.at);
      }
      ExecuteStops(s.(timer := None, isScheduled := false, sawTrigger := false), e.body, e.at);
      hide Execute;
    }
  }

  /**
   * However an effect is stopped, through its handle or by its own callback, whatever
   * happened before and whatever still arrives: each cleanup ever registered, late ones
   * included, has run exactly as often as it was registered; the callback never runs again
   * and no subscription is left. Nor is a timer, unless the effect stopped itself in a
   * leading run; that one is gone once it fires, running nothing.
   */
  lemma {:induction false} StopSettlesEverything(o: Options, before: seq<Event>, e: Event, after: seq<Event>)
    requires var s := Run(o, INITIAL, before); !Next(o, s, e).isActive && (s.isActive || e.Stopped?)
    ensures var stopped := Next(o, Run(o, INITIAL, before), e);
            var s := Run(o, stopped, after);
            && multiset(s.ran) == multiset(s.registered)
            && s.runs == stopped.runs && s.subscriptions == [] && s.cleanups == []
            && (stopped.timer.Some? <==> LeadsIntoStop(o, Run(o, INITIAL, before), e))
            && (stopped.timer.None? || (exists i :: 0 <= i < |after| && after[i].TimerDue?) ==> s.timer.None?)
  {
    var running := Run(o, INITIAL, before);
    var stopped := Next(o, running, e);
    RunBalanced(o, INITIAL, before);
    NextBalanced(o, running, e);
    RunBalanced(o, stopped, after);
    StaysStopped(o, stopped, after);
    if !e.Stopped? {
      StopLeavesTimerExactly(o, running, e);
    }
    assert LeadsIntoStop(o, running, e) ==> o.debounce.Some?;
    hide Next, Run;
  }

  // ---------------------------------------------------------------------------------------
  // Debounced bursts

  /** A callback that neither throws nor touches its own effect. */
  predicate Calm(body: Body) {
    !body.ending.Throws? && forall i :: 0 <= i < |body.actions| ==> body.actions[i].Register?
  }

  lemma {:induction false} CalmActs(s: State, generation: nat, actions: seq<Action>)
    requires forall i :: 0 <= i < |actions| ==> actions[i].Register?
    ensures var s' := ActAll(s, generation, actions);
            s' == s.(cleanups := s'.cleanups, registered := s'.registered, ran := s'.ran)
    decreases |actions|
  {
    if actions != [] {
      CalmActs(Act(s, generation, actions[0]), generation, actions[1..]);
    }
  }

  lemma CalmExecutes(s: State, body: Body, now: int)
    requires Calm(body) && s.isActive && !s.isPaused
    ensures var (s', threw) := Execute(s, body, now);
            !threw && s'.isActive && !s'.isPaused && s'.runs == s.runs + [now]
            && s'.timer == s.timer && s'.sawTrigger == s.sawTrigger
  {
    var begun := RunCleanups(s).(isScheduled := false, generation := s.generation + 1, subscriptions := [],
                                 runs := s.runs + [now]);
    CalmActs(begun, begun.generation, body.actions);
  }

  /** Time reaching `now`: a timer that is due by then fires at its own instant, running `body`. */
  function Settle(d: Debounce, s: State, body: Body, now: int): State {
    if s.timer.Some? && s.timer.value <= now then TimerFires(s, d, body, s.timer.value).0 else s
  }

  /** Triggers at their instants, with the timer firing in between whenever it falls due. */
  function RunTimed(o: Options, s: State, events: seq<Event>, trailing: Body): State
    requires o.debounce.Some? && forall i :: 0 <= i < |events| ==> events[i].Triggered?
    decreases |events|
  {
    if events == [] then s
    else RunTimed(o, Next(o, Settle(o.debounce.value, s, trailing, events[0].at), events[0]), events[1..], trailing)
  }

  /** Triggers that each come before the window opened by the one before has closed. */
  predicate IsBurst(d: Debounce, events: seq<Event>) {
    && events != []
    && (forall i :: 0 <= i < |events| ==> events[i].Triggered? && Calm(events[i].body))
    && (forall i :: 0 <= i < |events| - 1 ==> events[i].at <= events[i + 1].at < events[i].at + d.wait)
  }

  /** The triggers after the first come before the timer is due, and only push it out. */
  lemma {:induction false} WithinWindow(o: Options, s: State, events: seq<Event>, trailing: Body)
    requires o.debounce.Some? && s.isActive && !s.isPaused && s.timer.Some?
    requires forall i :: 0 <= i < |events| ==> events[i].Triggered?
    requires forall i :: 0 <= i < |events| - 1 ==> events[i + 1].at < events[i].at + o.debounce.value.wait
    requires events != [] ==> events[0].at < s.timer.value
    ensures var s' := RunTimed(o, s, events, trailing);
            && s'.isActive && !s'.isPaused && s'.runs == s.runs
            && s'.timer == (if events == [] then s.timer else Some(events[|events| - 1].at + o.debounce.value.wait))
            && s'.sawTrigger == (s.sawTrigger || events != [])
    decreases |events|
  {
    if events != [] {
      WithinWindow(o, Next(o, s, events[0]), events[1..], trailing);
    }
  }

  /**
   * A burst of triggers on an idle effect runs the callback once at the leading edge if
   * that is asked for, and once at the trailing edge if that is asked for and the leading
   * run has not already covered the burst. The trailing run comes exactly one `wait` after
   * the last trigger, however late one looks.
   */
  lemma {:induction false} BurstAccounting(o: Options, s: State, events: seq<Event>, trailing: Body, until: int)
    requires o.debounce.Some? && IsBurst(o.debounce.value, events) && Calm(trailing)
    requires s.isActive && !s.isPaused && s.timer.None? && !s.sawTrigger
    requires events[|events| - 1].at + o.debounce.value.wait <= until
    ensures var d, n := o.debounce.value, |events|;
            var due := events[n - 1].at + d.wait;
            var waiting := RunTimed(o, s, events, trailing);
            var s' := Settle(d, waiting, trailing, until);
            && waiting.timer == Some(due)
            && waiting.runs == s.runs + (if d.leading then [events[0].at] else [])
            && s'.runs == waiting.runs + (if d.trailing && (!d.leading || n >= 2) then [due] else [])
            && s'.timer.None? && !s'.sawTrigger && s'.isActive && !s'.isPaused
  {
    var d := o.debounce.value;
    CalmExecutes(s, events[0].body, events[0].at);
    var first := Next(o, s, events[0]);
    WithinWindow(o, first, events[1..], trailing);
    var waiting := RunTimed(o, s, events, trailing);
    assert waiting == RunTimed(o, first, events[1..], trailing);
    CalmExecutes(waiting.(timer := None, isScheduled := false, sawTrigger := false), trailing,
                 events[|events| - 1].at + d.wait);
    assert s.runs + [] == s.runs && waiting.runs + [] == waiting.runs;
  }
}
