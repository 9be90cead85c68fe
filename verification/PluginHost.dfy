/**
 * The plugin host: setup in registration order, teardown in strict reverse, rollback of a
 * failed boot. What a plugin's setup does is a script given with each start; a finalizer
 * knows whether it fails.
 */
module PluginHost {
  import opened Wrappers

  datatype Finalizer = Finalizer(id: nat, fails: bool)

  /** A setup registers finalizers and then returns a value or throws. */
  datatype Script = Script(finalizers: seq<Finalizer>, value: Option<int>)

  datatype StartedPlugin = StartedPlugin(name: string, teardowns: seq<Finalizer>)

  /** What happens, in order. */
  datatype Event =
    | Began(name: string)
    | Registered(finalizer: Finalizer)
    | SetUp(name: string)
    | Ran(finalizer: Finalizer)
    | TeardownError(name: string, finalizer: Finalizer)
    | TornDown(name: string)

  datatype Host = Host(
    plugins: seq<string>,
    values: map<string, int>,
    started: seq<StartedPlugin>,
    running: bool)

  // ---------------------------------------------------------------------------------------
  // Teardown

  /** A plugin's finalizers, last registered first, each attempted whatever the others do. */
  function RunFinalizers(name: string, fs: seq<Finalizer>): seq<Event> {
    if fs == [] then []
    else
      var last := fs[|fs| - 1];
      [Ran(last)] + (if last.fails then [TeardownError(name, last)] else []) + RunFinalizers(name, fs[..|fs| - 1])
  }

  function Failing(fs: seq<Finalizer>): seq<Finalizer> {
    if fs == [] then []
    else
      var last := fs[|fs| - 1];
      (if last.fails then [last] else []) + Failing(fs[..|fs| - 1])
  }

  function TeardownTrace(started: seq<StartedPlugin>): seq<Event> {
    if started == [] then []
    else
      var p := started[|started| - 1];
      RunFinalizers(p.name, p.teardowns) + [TornDown(p.name)] + TeardownTrace(started[..|started| - 1])
  }

  function TeardownFailures(started: seq<StartedPlugin>): seq<Finalizer> {
    if started == [] then []
    else
      var p := started[|started| - 1];
      Failing(p.teardowns) + TeardownFailures(started[..|started| - 1])
  }

  lemma {:induction false} NothingToRun(name: string)
    ensures RunFinalizers(name, []) == [] && Failing([]) == []
  {
  }

  lemma {:induction false} FinalizerStep(name: string, fs: seq<Finalizer>, t: nat, trace: seq<Event>,
                                         failures: seq<Finalizer>)
    requires 0 < t <= |fs|
    ensures var f := fs[t - 1];
            var error := if f.fails then [TeardownError(name, f)] else [];
            && trace + RunFinalizers(name, fs[..t]) == trace + [Ran(f)] + error + RunFinalizers(name, fs[..t - 1])
            && failures + Failing(fs[..t]) == failures + (if f.fails then [f] else []) + Failing(fs[..t - 1])
  {
    assert fs[..t][..t - 1] == fs[..t - 1];
  }

  lemma NothingToTearDown()
    ensures TeardownTrace([]) == [] && TeardownFailures([]) == []
  {
  }

  lemma TeardownStep(started: seq<StartedPlugin>, index: nat, trace: seq<Event>, failures: seq<Finalizer>)
    requires 0 < index <= |started|
    ensures var p := started[index - 1];
            && trace + TeardownTrace(started[..index])
               == trace + RunFinalizers(p.name, p.teardowns) + [TornDown(p.name)] + TeardownTrace(started[..index - 1])
            && failures + TeardownFailures(started[..index])
               == failures + Failing(p.teardowns) + TeardownFailures(started[..index - 1])
  {
    assert started[..index][..index - 1] == started[..index - 1];
  }

  // ---------------------------------------------------------------------------------------
  // Start and stop

  function Registrations(fs: seq<Finalizer>): seq<Event> {
    if fs == [] then [] else [Registered(fs[0])] + Registrations(fs[1..])
  }

  /** The plugins from `i` on, until one fails; the flag says whether all came up. */
  function Boot(h: Host, scripts: seq<Script>, i: nat): (Host, seq<Event>, bool)
    requires i <= |h.plugins| == |scripts|
    decreases |h.plugins| - i
  {
    if i == |h.plugins| then (h, [], true)
    else
      var name := h.plugins[i];
      var h1 := h.(started := h.started + [StartedPlugin(name, scripts[i].finalizers)]);
      var begun := [Began(name)] + Registrations(scripts[i].finalizers);
      match scripts[i].value
      case None => (h1, begun, false)
      case Some(v) =>
        var (h2, events, ok) := Boot(h1.(values := h.values[name := v]), scripts, i + 1);
        (h2, begun + [SetUp(name)] + events, ok)
  }

  /** A boot that has come to plugin `i` with `trace` behind it. */
  function Ahead(h: Host, trace: seq<Event>, scripts: seq<Script>, i: nat): (Host, seq<Event>, bool)
    requires i <= |h.plugins| == |scripts|
  {
    var (h1, events, ok) := Boot(h, scripts, i);
    (h1, trace + events, ok)
  }

  lemma {:induction false} AheadAtStart(h: Host, trace: seq<Event>, scripts: seq<Script>)
    requires |h.plugins| == |scripts|
    ensures var (h1, events, ok) := Boot(h, scripts, 0); Ahead(h, trace, scripts, 0) == (h1, trace + events, ok)
  {
  }

  lemma BootStep(h: Host, trace: seq<Event>, scripts: seq<Script>, i: nat)
    requires i < |h.plugins| == |scripts|
    ensures var name, s := h.plugins[i], scripts[i];
            var h1 := h.(started := h.started + [StartedPlugin(name, s.finalizers)]);
            var begun := trace + [Began(name)] + Registrations(s.finalizers);
            Ahead(h, trace, scripts, i) ==
            if s.value.None? then (h1, begun, false)
            else Ahead(h1.(values := h.values[name := s.value.value]), begun + [SetUp(name)], scripts, i + 1)
  {
    hide Registrations;
    var registered := Registrations(scripts[i].finalizers);
    assert trace + ([Began(h.plugins[i])] + registered) == trace + [Began(h.plugins[i])] + registered;
    if scripts[i].value.Some? {
      var h2 := h.(started := h.started + [StartedPlugin(h.plugins[i], scripts[i].finalizers)],
                   values := h.values[h.plugins[i] := scripts[i].value.value]);
      var rest := Boot(h2, scripts, i + 1).1;
      assert trace + ([Began(h.plugins[i])] + registered + [SetUp(h.plugins[i])] + rest)
             == trace + [Began(h.plugins[i])] + registered + [SetUp(h.plugins[i])] + rest;
    }
  }

  lemma BootDone(h: Host, trace: seq<Event>, scripts: seq<Script>)
    requires |h.plugins| == |scripts|
    ensures Ahead(h, trace, scripts, |scripts|) == (h, trace, true)
  {
    assert trace + [] == trace;
  }

  function Emptied(h: Host): Host {
    h.(values := map[], started := [], running := false)
  }

  function Start(h: Host, scripts: seq<Script>): (Host, seq<Event>, bool)
    requires |h.plugins| == |scripts|
  {
    if h.running then (h, [], true)
    else
      var (booted, events, ok) := Boot(h, scripts, 0);
      if ok then (booted.(running := true), events, true)
      else (Emptied(booted), events + TeardownTrace(booted.started), false)
  }

  /** The failures a stop reports, in the order they occurred. */
  function Stop(h: Host): (Host, seq<Event>, seq<Finalizer>) {
    if !h.running then (h, [], [])
    else (Emptied(h), TeardownTrace(h.started), TeardownFailures(h.started))
  }

  /** Registering is refused while running, and for a name already taken. */
  function Use(h: Host, name: string): (Host, bool) {
    if h.running || name in h.plugins then (h, false) else (h.(plugins := h.plugins + [name]), true)
  }

  class PluginHostImpl {
    var plugins: seq<string>
    var values: map<string, int>
    var started: seq<StartedPlugin>
    var running: bool
    var trace: seq<Event>

    ghost function Now(): Host
      reads this
    {
      Host(plugins, values, started, running)
    }

    constructor ()
      ensures Now() == Host([], map[], [], false) && trace == []
    {
      plugins, values, started, running, trace := [], map[], [], false, [];
    }

    method UsePlugin(name: string) returns (ok: bool)
      modifies this
      ensures (Now(), ok) == Use(old(Now()), name) && trace == old(trace)
    {
      if running || name in plugins {
        return false;
      }
      plugins := plugins + [name];
      return true;
    }

    method TeardownAll() returns (failures: seq<Finalizer>)
      modifies this
      ensures failures == TeardownFailures(old(started)) && trace == old(trace) + TeardownTrace(old(started))
      ensures Now() == old(Now()).(values := map[], started := [])
    {
      hide RunFinalizers, Failing, TeardownTrace, TeardownFailures;
      failures := [];
      var index := |started|;
      assert started[..index] == started;
      while index > 0
        invariant 0 <= index <= |started| && Now() == old(Now())
        invariant failures + TeardownFailures(started[..index]) == TeardownFailures(old(started))
        invariant trace + TeardownTrace(started[..index]) == old(trace) + TeardownTrace(old(started))
      {
        var plugin := started[index - 1];
        TeardownStep(started, index, trace, failures);
        var failed := TeardownPlugin(plugin);
        failures := failures + failed;
        trace := trace + [TornDown(plugin.name)];
        index := index - 1;
      }
      assert TeardownTrace(started[..0]) == [] && TeardownFailures(started[..0]) == [] by {
        NothingToTearDown();
      }
      started := [];
      values := map[];
    }

    method TeardownPlugin(plugin: StartedPlugin) returns (failures: seq<Finalizer>)
      modifies this`trace
      ensures failures == Failing(plugin.teardowns)
      ensures trace == old(trace) + RunFinalizers(plugin.name, plugin.teardowns)
    {
      hide RunFinalizers, Failing;
      failures := [];
      var t := |plugin.teardowns|;
      assert plugin.teardowns[..t] == plugin.teardowns;
      while t > 0
        invariant 0 <= t <= |plugin.teardowns|
        invariant failures + Failing(plugin.teardowns[..t]) == Failing(plugin.teardowns)
        invariant trace + RunFinalizers(plugin.name, plugin.teardowns[..t])
                  == old(trace) + RunFinalizers(plugin.name, plugin.teardowns)
      {
        var f := plugin.teardowns[t - 1];
        FinalizerStep(plugin.name, plugin.teardowns, t, trace, failures);
        trace := trace + [Ran(f)];
        if f.fails {
          failures := failures + [f];
          trace := trace + [TeardownError(plugin.name, f)];
        }
        t := t - 1;
      }
      NothingToRun(plugin.name);
      assert plugin.teardowns[..0] == [];
    }

    method RunSetup(script: Script)
      modifies this`trace
      ensures trace == old(trace) + Registrations(script.finalizers)
    {
      for k := 0 to |script.finalizers|
        invariant trace + Registrations(script.finalizers[k..]) == old(trace) + Registrations(script.finalizers)
      {
        assert script.finalizers[k..][1..] == script.finalizers[k + 1..];
        trace := trace + [Registered(script.finalizers[k])];
      }
    }

    method StartAll(scripts: seq<Script>) returns (ok: bool)
      requires |scripts| == |plugins|
      modifies this
      ensures var (h, events, up) := Start(old(Now()), scripts);
              Now() == h && trace == old(trace) + events && ok == up
    {
      hide Boot, TeardownTrace, TeardownFailures;
      if running {
        return true;
      }
      AheadAtStart(Now(), trace, scripts);
      ok := BringUp(scripts);
      hide Ahead;
      if !ok {
        var _ := TeardownAll();
      }
      running := ok;
    }

    /** Sets the plugins up in order, stopping at the first that fails. */
    method BringUp(scripts: seq<Script>) returns (ok: bool)
      requires |scripts| == |plugins|
      modifies this`started, this`values, this`trace
      ensures (Now(), trace, ok) == Ahead(old(Now()), old(trace), scripts, 0)
    {
      hide Ahead, Registrations;
      for i := 0 to |plugins|
        invariant Now().plugins == old(plugins)
        invariant Ahead(Now(), trace, scripts, i) == Ahead(old(Now()), old(trace), scripts, 0)
      {
        BootStep(Now(), trace, scripts, i);
        var name := plugins[i];
        trace := trace + [Began(name)];
        RunSetup(scripts[i]);
        started := started + [StartedPlugin(name, scripts[i].finalizers)];
        if scripts[i].value.None? {
          return false;
        }
        values := values[name := scripts[i].value.value];
        trace := trace + [SetUp(name)];
      }
      BootDone(Now(), trace, scripts);
      return true;
    }

    method StopAll() returns (failures: seq<Finalizer>)
      modifies this
      ensures var (h, events, failed) := Stop(old(Now()));
              Now() == h && trace == old(trace) + events && failures == failed
    {
      if !running {
        return [];
      }
      running := false;
      failures := TeardownAll();
    }
  }

  // ---------------------------------------------------------------------------------------
  // Bracketing

  /** What is open: plugins whose setup began, and within each its finalizers. */
  datatype Open = OpenPlugin(name: string) | OpenFinalizer(finalizer: Finalizer)

  /** What is open after a trace, unless something closed that was not the latest opened. */
  function OpenAfter(open: seq<Open>, trace: seq<Event>): Option<seq<Open>>
    decreases |trace|
  {
    if trace == [] then Some(open)
    else
      var rest := trace[1..];
      match trace[0]
      case Began(name) => OpenAfter(open + [OpenPlugin(name)], rest)
      case Registered(f) => OpenAfter(open + [OpenFinalizer(f)], rest)
      case SetUp(_) => OpenAfter(open, rest)
      case TeardownError(_, _) => OpenAfter(open, rest)
      case Ran(f) =>
        if open != [] && open[|open| - 1] == OpenFinalizer(f) then OpenAfter(open[..|open| - 1], rest) else None
      case TornDown(name) =>
        if open != [] && open[|open| - 1] == OpenPlugin(name) then OpenAfter(open[..|open| - 1], rest) else None
  }

  function OpenFinalizers(fs: seq<Finalizer>): seq<Open> {
    if fs == [] then [] else OpenFinalizers(fs[..|fs| - 1]) + [OpenFinalizer(fs[|fs| - 1])]
  }

  /** What a host with these started plugins still has to close. */
  function OpenOf(started: seq<StartedPlugin>): seq<Open> {
    if started == [] then []
    else
      var p := started[|started| - 1];
      OpenOf(started[..|started| - 1]) + [OpenPlugin(p.name)] + OpenFinalizers(p.teardowns)
  }

  lemma {:induction false} OpenAfterConcat(open: seq<Open>, a: seq<Event>, b: seq<Event>)
    ensures OpenAfter(open, a + b) ==
            match OpenAfter(open, a) case None => None case Some(mid) => OpenAfter(mid, b)
    decreases |a|
  {
    if a == [] {
      assert a + b == b;
    } else {
      assert (a + b)[1..] == a[1..] + b;
      var next := match a[0]
        case Began(name) => open + [OpenPlugin(name)]
        case Registered(f) => open + [OpenFinalizer(f)]
        case SetUp(_) => open
        case TeardownError(_, _) => open
        case Ran(_) => if open == [] then open else open[..|open| - 1]
        case TornDown(_) => if open == [] then open else open[..|open| - 1];
      OpenAfterConcat(next, a[1..], b);
    }
  }

  lemma {:induction false} RegistrationsOpen(open: seq<Open>, fs: seq<Finalizer>, done: seq<Finalizer>)
    ensures OpenAfter(open + OpenFinalizers(done), Registrations(fs)) == Some(open + OpenFinalizers(done + fs))
    decreases |fs|
  {
    if fs == [] {
      assert done + fs == done;
    } else {
      var more := done + [fs[0]];
      assert more[..|more| - 1] == done;
      assert open + OpenFinalizers(done) + [OpenFinalizer(fs[0])] == open + OpenFinalizers(more);
      RegistrationsOpen(open, fs[1..], more);
      assert done + fs == more + fs[1..];
    }
  }

  lemma {:induction false} FinalizersClose(open: seq<Open>, name: string, fs: seq<Finalizer>)
    ensures OpenAfter(open + OpenFinalizers(fs), RunFinalizers(name, fs)) == Some(open)
    decreases |fs|
  {
    if fs == [] {
      assert open + [] == open;
    } else {
      var last, before := fs[|fs| - 1], fs[..|fs| - 1];
      var all := open + OpenFinalizers(fs);
      assert all == (open + OpenFinalizers(before)) + [OpenFinalizer(last)];
      assert all[..|all| - 1] == open + OpenFinalizers(before);
      var error := if last.fails then [TeardownError(name, last)] else [];
      OpenAfterConcat(all, [Ran(last)] + error, RunFinalizers(name, before));
      OpenAfterConcat(all, [Ran(last)], error);
      assert OpenAfter(open + OpenFinalizers(before), error) == Some(open + OpenFinalizers(before));
      FinalizersClose(open, name, before);
    }
  }

  /** Teardown closes everything the started plugins have open, innermost first. */
  lemma {:induction false} TeardownCloses(started: seq<StartedPlugin>)
    ensures OpenAfter(OpenOf(started), TeardownTrace(started)) == Some([])
    decreases |started|
  {
    if started != [] {
      var p, before := started[|started| - 1], started[..|started| - 1];
      var base := OpenOf(before) + [OpenPlugin(p.name)];
      FinalizersClose(base, p.name, p.teardowns);
      OpenAfterConcat(OpenOf(started), RunFinalizers(p.name, p.teardowns) + [TornDown(p.name)], TeardownTrace(before));
      OpenAfterConcat(OpenOf(started), RunFinalizers(p.name, p.teardowns), [TornDown(p.name)]);
      assert base[..|base| - 1] == OpenOf(before);
      TeardownCloses(before);
    }
  }

  lemma {:induction false} OpenAfterNothing(open: seq<Open>)
    ensures OpenAfter(open, []) == Some(open)
  {
  }

  lemma {:induction false} OpenAfterOne(open: seq<Open>, name: string)
    ensures OpenAfter(open, [Began(name)]) == Some(open + [OpenPlugin(name)])
    ensures OpenAfter(open, [SetUp(name)]) == Some(open)
  {
  }

  lemma {:induction false} BootOpens(h: Host, scripts: seq<Script>, i: nat)
    requires i <= |h.plugins| == |scripts|
    ensures var (h', events, ok) := Boot(h, scripts, i);
            && OpenAfter(OpenOf(h.started), events) == Some(OpenOf(h'.started))
            && h'.plugins == h.plugins && h'.running == h.running
    decreases |h.plugins| - i
  {
    hide OpenAfter, Registrations;
    if i == |h.plugins| {
      OpenAfterNothing(OpenOf(h.started));
    } else {
      var name, fs := h.plugins[i], scripts[i].finalizers;
      var h1 := h.(started := h.started + [StartedPlugin(name, fs)]);
      var begun := [Began(name)] + Registrations(fs);
      var base := OpenOf(h.started) + [OpenPlugin(name)];
      OpenAfterConcat(OpenOf(h.started), [Began(name)], Registrations(fs));
      OpenAfterOne(OpenOf(h.started), name);
      RegistrationsOpen(base, fs, []);
      assert base + [] == base && [] + fs == fs;
      assert h1.started[..|h1.started| - 1] == h.started;
      assert OpenAfter(OpenOf(h.started), begun) == Some(OpenOf(h1.started));
      if scripts[i].value.Some? {
        var h2 := h1.(values := h.values[name := scripts[i].value.value]);
        BootOpens(h2, scripts, i + 1);
        OpenAfterConcat(OpenOf(h.started), begun + [SetUp(name)], Boot(h2, scripts, i + 1).1);
        OpenAfterConcat(OpenOf(h.started), begun, [SetUp(name)]);
        OpenAfterOne(OpenOf(h1.started), name);
      }
    }
  }

  // ---------------------------------------------------------------------------------------
  // Any sequence of calls

  datatype Call = UseCall(name: string) | StartCall(scripts: seq<Script>) | StopCall

  function Do(h: Host, c: Call): (Host, seq<Event>)
    requires c.StartCall? ==> |c.scripts| == |h.plugins|
  {
    match c
    case UseCall(name) => (Use(h, name).0, [])
    case StartCall(scripts) => (Start(h, scripts).0, Start(h, scripts).1)
    case StopCall => (Stop(h).0, Stop(h).1)
  }

  predicate Admissible(h: Host, calls: seq<Call>)
    decreases |calls|
  {
    calls == [] ||
    ((calls[0].StartCall? ==> |calls[0].scripts| == |h.plugins|) && Admissible(Do(h, calls[0]).0, calls[1..]))
  }

  function Trace(h: Host, calls: seq<Call>): (Host, seq<Event>)
    requires Admissible(h, calls)
    decreases |calls|
  {
    if calls == [] then (h, [])
    else
      var (h1, events) := Do(h, calls[0]);
      var (h2, rest) := Trace(h1, calls[1..]);
      (h2, events + rest)
  }

  /** A host that is not running holds nothing; one that is holds every plugin, in order. */
  ghost predicate Tidy(h: Host) {
    && (!h.running ==> h.started == [] && h.values == map[])
    && (h.running ==>
          |h.started| == |h.plugins| && forall i :: 0 <= i < |h.plugins| ==> h.started[i].name == h.plugins[i])
  }

  /**
   * Setups follow registration order and stop at the first that fails: the plugins started,
   * that one included, are exactly those up to it, or all of them when none fails.
   */
  lemma {:induction false} BootInOrder(h: Host, scripts: seq<Script>, i: nat)
    requires i <= |h.plugins| == |scripts| && |h.started| == i
    requires forall k :: 0 <= k < i ==> h.started[k].name == h.plugins[k]
    ensures var (h', _, ok) := Boot(h, scripts, i);
            && |h'.started| <= |h.plugins| && (ok ==> |h'.started| == |h.plugins|)
            && (ok <==> forall k :: i <= k < |scripts| ==> scripts[k].value.Some?)
            && (!ok ==> i < |h'.started| && scripts[|h'.started| - 1].value.None?
                        && forall k :: i <= k < |h'.started| - 1 ==> scripts[k].value.Some?)
            && forall k :: 0 <= k < |h'.started| ==> h'.started[k].name == h.plugins[k]
    decreases |h.plugins| - i
  {
    if i < |h.plugins| && scripts[i].value.Some? {
      var name := h.plugins[i];
      BootInOrder(h.(started := h.started + [StartedPlugin(name, scripts[i].finalizers)],
                     values := h.values[name := scripts[i].value.value]), scripts, i + 1);
    }
  }

  lemma CallBrackets(h: Host, c: Call)
    requires Tidy(h) && (c.StartCall? ==> |c.scripts| == |h.plugins|)
    ensures var (h', events) := Do(h, c);
            Tidy(h') && OpenAfter(OpenOf(h.started), events) == Some(OpenOf(h'.started))
  {
    match c
    case UseCall(_) =>
    case StartCall(scripts) =>
      if !h.running {
        BootOpens(h, scripts, 0);
        BootInOrder(h, scripts, 0);
        var (booted, events, ok) := Boot(h, scripts, 0);
        if !ok {
          OpenAfterConcat(OpenOf(h.started), events, TeardownTrace(booted.started));
          TeardownCloses(booted.started);
        }
      }
    case StopCall =>
      TeardownCloses(h.started);
  }

  /**
   * Over any sequence of use, start and stop calls the trace is well bracketed: whatever is
   * closed is the latest thing still open, so finalizers run in exact reverse of their
   * registration and each exactly once, failing or not; and what is still open at the end
   * is exactly what the host holds, which is nothing unless it is running.
   */
  lemma {:induction false} TracesAreBracketed(h: Host, calls: seq<Call>)
    requires Tidy(h) && Admissible(h, calls)
    ensures var (h', events) := Trace(h, calls);
            && Tidy(h') && OpenAfter(OpenOf(h.started), events) == Some(OpenOf(h'.started))
            && (!h'.running ==> OpenOf(h'.started) == [])
    decreases |calls|
  {
    if calls != [] {
      var (h1, events) := Do(h, calls[0]);
      CallBrackets(h, calls[0]);
      TracesAreBracketed(h1, calls[1..]);
      OpenAfterConcat(OpenOf(h.started), events, Trace(h1, calls[1..]).1);
    }
  }

  /** A failed boot leaves an empty host that a later start can bring up. */
  lemma FailedBootLeavesNothing(h: Host, failing: seq<Script>, working: seq<Script>)
    requires Tidy(h) && !h.running && |failing| == |working| == |h.plugins|
    requires exists i :: 0 <= i < |failing| && failing[i].value.None?
    requires forall i :: 0 <= i < |working| ==> working[i].value.Some?
    ensures var (h', _, ok) := Start(h, failing);
            !ok && h' == h && Start(h', working).2 && Start(h', working).0.running
  {
    BootInOrder(h, failing, 0);
    BootOpens(h, failing, 0);
    BootInOrder(h, working, 0);
  }

  /** Failures in a trace, in order. */
  function Errors(trace: seq<Event>): seq<Finalizer> {
    if trace == [] then []
    else (if trace[0].TeardownError? then [trace[0].finalizer] else []) + Errors(trace[1..])
  }

  lemma {:induction false} ErrorsCons(e: Event, rest: seq<Event>)
    ensures Errors([e] + rest) == (if e.TeardownError? then [e.finalizer] else []) + Errors(rest)
  {
    assert ([e] + rest)[1..] == rest;
  }

  lemma {:induction false} ErrorsConcat(a: seq<Event>, b: seq<Event>)
    ensures Errors(a + b) == Errors(a) + Errors(b)
  {
    if a == [] {
      assert a + b == b;
    } else {
      var first := if a[0].TeardownError? then [a[0].finalizer] else [];
      hide Errors;
      calc {
        Errors(a + b);
        { assert a + b == [a[0]] + (a[1..] + b); ErrorsCons(a[0], a[1..] + b); }
        first + Errors(a[1..] + b);
        { ErrorsConcat(a[1..], b); }
        first + (Errors(a[1..]) + Errors(b));
        (first + Errors(a[1..])) + Errors(b);
        { assert a == [a[0]] + a[1..]; ErrorsCons(a[0], a[1..]); }
        Errors(a) + Errors(b);
      }
    }
  }

  lemma {:induction false} FinalizerErrors(name: string, fs: seq<Finalizer>)
    ensures Errors(RunFinalizers(name, fs)) == Failing(fs)
  {
    if fs != [] {
      var last, before := fs[|fs| - 1], fs[..|fs| - 1];
      var error := if last.fails then [TeardownError(name, last)] else [];
      ErrorsConcat([Ran(last)] + error, RunFinalizers(name, before));
      ErrorsConcat([Ran(last)], error);
      assert Errors(error) == if last.fails then [last] else [];
      FinalizerErrors(name, before);
    }
  }

  /** A stop reports every failure of its teardown, in the order the finalizers ran. */
  lemma {:induction false} AllFailuresCollected(started: seq<StartedPlugin>)
    ensures Errors(TeardownTrace(started)) == TeardownFailures(started)
  {
    if started != [] {
      var p, before := started[|started| - 1], started[..|started| - 1];
      ErrorsConcat(RunFinalizers(p.name, p.teardowns) + [TornDown(p.name)], TeardownTrace(before));
      ErrorsConcat(RunFinalizers(p.name, p.teardowns), [TornDown(p.name)]);
      FinalizerErrors(p.name, p.teardowns);
      AllFailuresCollected(before);
    }
  }

  // ---------------------------------------------------------------------------------------
  // From registering to serving

  function UseAll(h: Host, names: seq<string>): Host
    decreases |names|
  {
    if names == [] then h else UseAll(Use(h, names[0]).0, names[1..])
  }

  /** The names that are new to those `known`, each once, in the order they first come. */
  function Newcomers(known: seq<string>, names: seq<string>): seq<string>
    decreases |names|
  {
    if names == [] then []
    else if names[0] in known then Newcomers(known, names[1..])
    else [names[0]] + Newcomers(known + [names[0]], names[1..])
  }

  ghost predicate Distinct(names: seq<string>) {
    forall i, j :: 0 <= i < j < |names| ==> names[i] != names[j]
  }

  lemma {:induction false} UsesRegister(h: Host, names: seq<string>)
    ensures UseAll(h, names) == if h.running then h else h.(plugins := h.plugins + Newcomers(h.plugins, names))
    ensures Distinct(h.plugins) ==> Distinct(UseAll(h, names).plugins)
    decreases |names|
  {
    if names == [] {
      assert h.plugins + [] == h.plugins;
    } else {
      var h1 := Use(h, names[0]).0;
      UsesRegister(h1, names[1..]);
      if !h.running && names[0] !in h.plugins {
        assert h.plugins + [names[0]] + Newcomers(h1.plugins, names[1..]) == h.plugins + Newcomers(h.plugins, names);
      }
    }
  }

  /** A boot that succeeds keeps every plugin's finalizers and value, and the values it found. */
  lemma {:induction false} BootServes(h: Host, scripts: seq<Script>, i: nat)
    requires i <= |h.plugins| == |scripts| && |h.started| == i && Distinct(h.plugins)
    requires forall k :: i <= k < |scripts| ==> scripts[k].value.Some?
    requires forall k :: 0 <= k < i ==> h.started[k] == StartedPlugin(h.plugins[k], scripts[k].finalizers)
    requires forall k :: 0 <= k < i ==>
               scripts[k].value.Some? && h.plugins[k] in h.values && h.values[h.plugins[k]] == scripts[k].value.value
    requires forall name :: name in h.values ==> name in h.plugins
    ensures var (h', _, ok) := Boot(h, scripts, i);
            && ok && h'.plugins == h.plugins && |h'.started| == |h.plugins|
            && (forall k :: 0 <= k < |h.plugins| ==>
                  && h'.started[k] == StartedPlugin(h.plugins[k], scripts[k].finalizers)
                  && h.plugins[k] in h'.values && h'.values[h.plugins[k]] == scripts[k].value.value)
            && (forall name :: name in h'.values ==> name in h.plugins)
    decreases |h.plugins| - i
  {
    if i < |h.plugins| {
      var name, s := h.plugins[i], scripts[i];
      BootServes(h.(started := h.started + [StartedPlugin(name, s.finalizers)],
                    values := h.values[name := s.value.value]), scripts, i + 1);
    }
  }

  /** What the calls report is what came of them: a name registered, a host that runs, the failures of a stop. */
  lemma {:induction false} ReportsAreTrue(h: Host, name: string, scripts: seq<Script>)
    requires |scripts| == |h.plugins|
    ensures Use(h, name).1 <==> |Use(h, name).0.plugins| == |h.plugins| + 1
    ensures Use(h, name).1 ==> name !in h.plugins && name in Use(h, name).0.plugins
    ensures Start(h, scripts).2 <==> Start(h, scripts).0.running
    ensures !Stop(h).0.running && Stop(h).2 == Errors(Stop(h).1)
  {
    BootOpens(h, scripts, 0);
    AllFailuresCollected(h.started);
    hide Boot;
  }

  /**
   * From registering to serving: names used on a host that is not running are registered once
   * each, in order, after those it had; and when every setup succeeds, the running host holds
   * each plugin's own finalizers in that order, and serves each name the value its own setup
   * returned, and no other name. A running host registers nothing.
   */
  lemma {:induction false} UsedPluginsAreServed(h: Host, names: seq<string>, scripts: seq<Script>)
    requires Tidy(h) && Distinct(h.plugins)
    requires |scripts| == |UseAll(h, names).plugins| && forall k :: 0 <= k < |scripts| ==> scripts[k].value.Some?
    ensures h.running ==> UseAll(h, names) == h
    ensures !h.running ==>
              var (h', _, ok) := Start(UseAll(h, names), scripts);
              && ok && h'.running && h'.plugins == h.plugins + Newcomers(h.plugins, names) && Distinct(h'.plugins)
              && |h'.started| == |h'.plugins| == |scripts|
              && (forall k :: 0 <= k < |h'.plugins| ==>
                    && h'.started[k] == StartedPlugin(h'.plugins[k], scripts[k].finalizers)
                    && h'.plugins[k] in h'.values && h'.values[h'.plugins[k]] == scripts[k].value.value)
              && (forall name :: name in h'.values ==> name in h'.plugins)
  {
    UsesRegister(h, names);
    if !h.running {
      BootServes(UseAll(h, names), scripts, 0);
    }
  }
}
