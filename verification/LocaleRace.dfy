/**
 * Switching locale while translations load: `setLocale` calls, shared loads and their
 * completions interleave freely. Each method of the instance is one stretch of code between
 * awaits; a run is any sequence of such stretches.
 */
module LocaleRace {
  import opened Wrappers

  type Locale = string
  type Dictionary = map<string, string>
  type LoadId = nat
  type CallId = nat

  /** The fields of the instance. */
  datatype Fields = Fields(
    locale: Locale,
    translations: map<Locale, Dictionary>,
    pendingLoads: map<Locale, LoadId>,
    transition: nat)

  /** What the synchronous start of `setLocale` comes to. */
  datatype Begun = CommittedAtOnce | Awaiting(load: LoadId)

  function Begin(f: Fields, locale: Locale, newLoad: LoadId): (Begun, Fields) {
    var moved := f.(transition := f.transition + 1);
    if locale in f.translations then (CommittedAtOnce, moved.(locale := locale))
    else if locale in f.pendingLoads then (Awaiting(f.pendingLoads[locale]), moved)
    else (Awaiting(newLoad), moved.(pendingLoads := f.pendingLoads[locale := newLoad]))
  }

  function LoadArrived(f: Fields, locale: Locale, d: Dictionary): Fields {
    f.(translations := f.translations[locale := d])
  }

  function LoadFinished(f: Fields, locale: Locale, load: LoadId): Fields {
    if locale in f.pendingLoads && f.pendingLoads[locale] == load
    then f.(pendingLoads := f.pendingLoads - {locale}) else f
  }

  /** The rest of `setLocale` after its load; the flag says whether it committed. */
  function Continue(f: Fields, locale: Locale, transition: nat): (bool, Fields) {
    if transition != f.transition then (false, f) else (true, f.(locale := locale))
  }

  function AddTranslations(f: Fields, locale: Locale, d: Dictionary): Fields {
    f.(translations := f.translations[locale := if locale in f.translations then f.translations[locale] + d else d])
  }

  class I18nInstance {
    var locale: Locale
    var translations: map<Locale, Dictionary>
    var pendingLoads: map<Locale, LoadId>
    var localeTransition: nat

    ghost function Now(): Fields
      reads this
    {
      Fields(locale, translations, pendingLoads, localeTransition)
    }

    constructor (initial: Locale, translations: map<Locale, Dictionary>)
      ensures Now() == Fields(initial, translations, map[], 0)
    {
      locale := initial;
      this.translations := translations;
      pendingLoads := map[];
      localeTransition := 0;
    }

    method SetLocale(target: Locale, newLoad: LoadId) returns (transition: nat, begun: Begun)
      modifies this
      ensures transition == localeTransition && (begun, Now()) == Begin(old(Now()), target, newLoad)
    {
      localeTransition := localeTransition + 1;
      transition := localeTransition;
      if target !in translations {
        if target !in pendingLoads {
          pendingLoads := pendingLoads[target := newLoad];
        }
        return transition, Awaiting(pendingLoads[target]);
      }
      locale := target;
      begun := CommittedAtOnce;
    }

    method Arrive(loaded: Locale, d: Dictionary)
      modifies this
      ensures Now() == LoadArrived(old(Now()), loaded, d)
    {
      translations := translations[loaded := d];
    }

    method FinishLoad(loaded: Locale, load: LoadId)
      modifies this
      ensures Now() == LoadFinished(old(Now()), loaded, load)
    {
      if loaded in pendingLoads && pendingLoads[loaded] == load {
        pendingLoads := pendingLoads - {loaded};
      }
    }

    method Resume(target: Locale, transition: nat) returns (committed: bool)
      modifies this
      ensures (committed, Now()) == Continue(old(Now()), target, transition)
    {
      if transition != localeTransition {
        return false;
      }
      locale := target;
      return true;
    }

    method Add(target: Locale, d: Dictionary)
      modifies this
      ensures Now() == AddTranslations(old(Now()), target, d)
    {
      if target in translations {
        translations := translations[target := translations[target] + d];
      } else {
        translations := translations[target := d];
      }
    }
  }

  // ---------------------------------------------------------------------------------------
  // Runs

  /** A load: running, then settled by its handler, then released when its cleanup has run. */
  datatype Phase = Running | Arrived | Broken | Released(ok: bool)

  datatype Load = Load(locale: Locale, phase: Phase)

  datatype Status = Waiting(load: LoadId) | Committed | Superseded | Failed

  datatype Call = Call(locale: Locale, transition: nat, status: Status)

  datatype Commit = Commit(transition: nat, locale: Locale)

  datatype World = World(fields: Fields, loads: map<LoadId, Load>, calls: map<CallId, Call>, commits: seq<Commit>)

  datatype Step =
    | SetLocale(call: CallId, locale: Locale, newLoad: LoadId)
    | Arrives(load: LoadId, dictionary: Dictionary)
    | Breaks(load: LoadId)
    | Releases(load: LoadId)
    | Resumes(call: CallId)
    | Adds(locale: Locale, dictionary: Dictionary)

  predicate Enabled(w: World, step: Step) {
    match step
    case SetLocale(call, _, newLoad) => call !in w.calls && newLoad !in w.loads
    case Arrives(load, _) => load in w.loads && w.loads[load].phase.Running?
    case Breaks(load) => load in w.loads && w.loads[load].phase.Running?
    case Releases(load) => load in w.loads && (w.loads[load].phase.Arrived? || w.loads[load].phase.Broken?)
    case Resumes(call) =>
      call in w.calls && w.calls[call].status.Waiting? && w.calls[call].status.load in w.loads
      && w.loads[w.calls[call].status.load].phase.Released?
    case Adds(_, _) => true
  }

  function Next(w: World, step: Step): World
    requires Enabled(w, step)
  {
    match step
    case SetLocale(call, locale, newLoad) =>
      var (begun, f) := Begin(w.fields, locale, newLoad);
      (match begun
       case CommittedAtOnce =>
         World(f, w.loads, w.calls[call := Call(locale, f.transition, Committed)],
               w.commits + [Commit(f.transition, locale)])
       case Awaiting(load) =>
         World(f, if load in w.loads then w.loads else w.loads[load := Load(locale, Running)],
               w.calls[call := Call(locale, f.transition, Waiting(load))], w.commits))
    case Arrives(load, d) =>
      w.(fields := LoadArrived(w.fields, w.loads[load].locale, d),
         loads := w.loads[load := w.loads[load].(phase := Arrived)])
    case Breaks(load) =>
      w.(loads := w.loads[load := w.loads[load].(phase := Broken)])
    case Releases(load) =>
      w.(fields := LoadFinished(w.fields, w.loads[load].locale, load),
         loads := w.loads[load := w.loads[load].(phase := Released(w.loads[load].phase.Arrived?))])
    case Resumes(call) =>
      var c := w.calls[call];
      if !w.loads[c.status.load].phase.ok then w.(calls := w.calls[call := c.(status := Failed)])
      else
        var (committed, f) := Continue(w.fields, c.locale, c.transition);
        w.(fields := f,
           calls := w.calls[call := c.(status := if committed then Committed else Superseded)],
           commits := if committed then w.commits + [Commit(c.transition, c.locale)] else w.commits)
    case Adds(locale, d) => w.(fields := AddTranslations(w.fields, locale, d))
  }

  predicate Admissible(w: World, steps: seq<Step>)
    decreases |steps|
  {
    steps == [] || (Enabled(w, steps[0]) && Admissible(Next(w, steps[0]), steps[1..]))
  }

  function Run(w: World, steps: seq<Step>): World
    requires Admissible(w, steps)
    decreases |steps|
  {
    if steps == [] then w else Run(Next(w, steps[0]), steps[1..])
  }

  function Initial(locale: Locale, translations: map<Locale, Dictionary>): World {
    World(Fields(locale, translations, map[], 0), map[], map[], [])
  }

  // ---------------------------------------------------------------------------------------
  // The invariant

  ghost predicate LoadsOk(w: World) {
    && (forall l :: l in w.loads && !w.loads[l].phase.Released? ==>
          w.loads[l].locale in w.fields.pendingLoads && w.fields.pendingLoads[w.loads[l].locale] == l)
    && (forall locale :: locale in w.fields.pendingLoads ==>
          && w.fields.pendingLoads[locale] in w.loads && w.loads[w.fields.pendingLoads[locale]].locale == locale
          && !w.loads[w.fields.pendingLoads[locale]].phase.Released?)
    && (forall l :: l in w.loads && (w.loads[l].phase.Arrived? || w.loads[l].phase == Released(true)) ==>
          w.loads[l].locale in w.fields.translations)
  }

  ghost predicate Numbered(w: World) {
    && (forall c :: c in w.calls ==> 1 <= w.calls[c].transition <= w.fields.transition)
    && (forall c, d :: c in w.calls && d in w.calls && c != d ==> w.calls[c].transition != w.calls[d].transition)
  }

  ghost predicate WaitersOk(w: World) {
    forall c :: c in w.calls && w.calls[c].status.Waiting? ==>
      w.calls[c].status.load in w.loads && w.loads[w.calls[c].status.load].locale == w.calls[c].locale
  }

  ghost predicate CommittersOk(w: World) {
    forall c :: c in w.calls && w.calls[c].status.Committed? ==>
      Commit(w.calls[c].transition, w.calls[c].locale) in w.commits
  }

  ghost predicate CallsOk(w: World) {
    Numbered(w) && WaitersOk(w) && CommittersOk(w)
  }

  ghost predicate CommitsOk(w: World) {
    && (forall i :: 0 <= i < |w.commits| ==>
          && w.commits[i].transition <= w.fields.transition
          && w.commits[i].locale in w.fields.translations
          && exists c :: c in w.calls && w.calls[c].status.Committed?
                         && w.calls[c].transition == w.commits[i].transition)
    && (forall i, j :: 0 <= i < j < |w.commits| ==> w.commits[i].transition < w.commits[j].transition)
    && (w.commits != [] ==> w.fields.locale == w.commits[|w.commits| - 1].locale)
  }

  ghost predicate Inv(w: World) {
    LoadsOk(w) && CallsOk(w) && CommitsOk(w)
  }

  lemma CommitsSurvive(w: World, w': World)
    requires CommitsOk(w) && w'.commits == w.commits && w'.fields.locale == w.fields.locale
    requires w.fields.transition <= w'.fields.transition
    requires forall l :: l in w.fields.translations ==> l in w'.fields.translations
    requires forall c :: c in w.calls && w.calls[c].status.Committed? ==> c in w'.calls && w'.calls[c] == w.calls[c]
    ensures CommitsOk(w')
  {
    forall i | 0 <= i < |w'.commits|
      ensures exists c :: c in w'.calls && w'.calls[c].status.Committed?
                          && w'.calls[c].transition == w'.commits[i].transition
    {
      var c :| c in w.calls && w.calls[c].status.Committed? && w.calls[c].transition == w.commits[i].transition;
      assert w'.calls[c] == w.calls[c];
    }
  }

  /** Adding the commit of a call whose transition is the newest and not yet committed. */
  lemma CommitsExtend(w: World, w': World, call: CallId)
    requires CommitsOk(w)
    requires call in w'.calls && w'.calls[call].status.Committed? && w'.calls[call].transition == w'.fields.transition
    requires w'.commits == w.commits + [Commit(w'.calls[call].transition, w'.calls[call].locale)]
    requires w'.fields.locale == w'.calls[call].locale && w'.fields.locale in w'.fields.translations
    requires w'.fields.translations == w.fields.translations
    requires forall i :: 0 <= i < |w.commits| ==> w.commits[i].transition < w'.fields.transition
    requires forall c :: c in w.calls && w.calls[c].status.Committed? ==> c in w'.calls && w'.calls[c] == w.calls[c]
    ensures CommitsOk(w')
  {
    forall i | 0 <= i < |w'.commits|
      ensures exists c :: c in w'.calls && w'.calls[c].status.Committed?
                          && w'.calls[c].transition == w'.commits[i].transition
    {
      if i < |w.commits| {
        var c :| c in w.calls && w.calls[c].status.Committed? && w.calls[c].transition == w.commits[i].transition;
        assert w'.calls[c] == w.calls[c];
      } else {
        assert w'.calls[call].transition == w'.commits[i].transition;
      }
    }
  }

  lemma SetLocaleKeepsLoads(w: World, step: Step)
    requires LoadsOk(w) && Enabled(w, step) && (step.SetLocale? || step.Resumes? || step.Adds?)
    ensures LoadsOk(Next(w, step))
  {
  }

  lemma LoadStepKeepsLoads(w: World, step: Step)
    requires LoadsOk(w) && Enabled(w, step) && (step.Arrives? || step.Breaks? || step.Releases?)
    ensures LoadsOk(Next(w, step))
  {
  }

  lemma StepKeepsNumbers(w: World, step: Step)
    requires Numbered(w) && Enabled(w, step)
    ensures Numbered(Next(w, step))
  {
    var w' := Next(w, step);
    if step.SetLocale? {
      assert w'.calls[step.call].transition == w'.fields.transition == w.fields.transition + 1;
      assert w'.calls == w.calls[step.call := w'.calls[step.call]];
    } else {
      assert w'.fields.transition == w.fields.transition;
      assert w'.calls.Keys == w.calls.Keys;
      assert forall c :: c in w.calls ==> w'.calls[c].transition == w.calls[c].transition;
    }
    hide Next, Enabled;
  }

  lemma StepKeepsWaiters(w: World, step: Step)
    requires LoadsOk(w) && WaitersOk(w) && Enabled(w, step)
    ensures WaitersOk(Next(w, step))
  {
  }

  lemma StepKeepsCommitters(w: World, step: Step)
    requires CommittersOk(w) && Enabled(w, step)
    ensures CommittersOk(Next(w, step))
  {
    var w' := Next(w, step);
    forall c | c in w'.calls && w'.calls[c].status.Committed?
      ensures Commit(w'.calls[c].transition, w'.calls[c].locale) in w'.commits
    {
      if c in w.calls && w.calls[c].status.Committed? {
        assert Commit(w.calls[c].transition, w.calls[c].locale) in w.commits;
      } else {
        assert w'.commits[|w.commits|] == Commit(w'.calls[c].transition, w'.calls[c].locale);
      }
    }
  }

  lemma StepKeepsCommits(w: World, step: Step)
    requires Inv(w) && Enabled(w, step)
    ensures CommitsOk(Next(w, step))
  {
    var w' := Next(w, step);
    if step.SetLocale? && step.locale in w.fields.translations {
      CommitsExtend(w, w', step.call);
    } else if step.Resumes? && w'.calls[step.call].status.Committed? {
      NothingNewerCommitted(w, step.call);
      CommitsExtend(w, w', step.call);
    } else {
      CommitsSurvive(w, w');
    }
  }

  /** The transition of a call that is still waiting has not been committed by anyone. */
  lemma NothingNewerCommitted(w: World, call: CallId)
    requires CallsOk(w) && CommitsOk(w)
    requires call in w.calls && w.calls[call].status.Waiting? && w.calls[call].transition == w.fields.transition
    ensures forall i :: 0 <= i < |w.commits| ==> w.commits[i].transition < w.fields.transition
  {
    forall i | 0 <= i < |w.commits| ensures w.commits[i].transition < w.fields.transition {
      var d :| d in w.calls && w.calls[d].status.Committed? && w.calls[d].transition == w.commits[i].transition;
      assert d != call;
    }
  }

  lemma StepKeepsInv(w: World, step: Step)
    requires Inv(w) && Enabled(w, step)
    ensures Inv(Next(w, step))
  {
    hide LoadsOk, Numbered, WaitersOk, CommittersOk, CommitsOk, Next;
    StepKeepsNumbers(w, step);
    StepKeepsWaiters(w, step);
    StepKeepsCommitters(w, step);
    StepKeepsCommits(w, step);
    if step.SetLocale? || step.Resumes? || step.Adds? {
      SetLocaleKeepsLoads(w, step);
    } else {
      LoadStepKeepsLoads(w, step);
    }
  }

  lemma {:induction false} RunKeepsInv(w: World, steps: seq<Step>)
    requires Inv(w) && Admissible(w, steps)
    ensures Inv(Run(w, steps))
    decreases |steps|
  {
    if steps != [] {
      StepKeepsInv(w, steps[0]);
      RunKeepsInv(Next(w, steps[0]), steps[1..]);
    }
  }

  // ---------------------------------------------------------------------------------------
  // What the race comes to

  ghost predicate Reachable(w: World) {
    exists locale, translations, steps ::
      Admissible(Initial(locale, translations), steps) && w == Run(Initial(locale, translations), steps)
  }

  lemma ReachableInv(w: World)
    requires Reachable(w)
    ensures Inv(w)
  {
    var locale, translations, steps :|
      Admissible(Initial(locale, translations), steps) && w == Run(Initial(locale, translations), steps);
    RunKeepsInv(Initial(locale, translations), steps);
  }

  /**
   * Commits happen in the order the calls were made, each to a locale whose translations
   * are there, and the current locale is the last one committed.
   */
  lemma CommitsInCallOrder(w: World, i: nat, j: nat)
    requires Reachable(w) && i < |w.commits| && j < |w.commits|
    ensures i < j ==> w.commits[i].transition < w.commits[j].transition
    ensures w.commits[i].locale in w.fields.translations
    ensures w.fields.locale == w.commits[|w.commits| - 1].locale
  {
    ReachableInv(w);
  }

  /** The call was overtaken by a newer one before it committed. */
  predicate Overtaken(w: World, call: CallId) {
    call in w.calls && !w.calls[call].status.Committed? && w.calls[call].transition < w.fields.transition
  }

  lemma {:induction false} StepStaysOvertaken(w: World, step: Step, call: CallId)
    requires Enabled(w, step) && Overtaken(w, call)
    ensures var w' := Next(w, step);
            && Overtaken(w', call) && w'.calls[call].transition == w.calls[call].transition
            && w.fields.transition <= w'.fields.transition
            && ((w'.commits == w.commits && w'.fields.locale == w.fields.locale)
                || w'.commits == w.commits + [Commit(w'.fields.transition, w'.fields.locale)])
  {
    hide LoadArrived, LoadFinished, AddTranslations;
    FieldsKept(w.fields);
  }

  lemma {:induction false} FieldsKept(f: Fields)
    ensures forall locale, d :: var g := LoadArrived(f, locale, d); g.locale == f.locale && g.transition == f.transition
    ensures forall locale, load ::
              var g := LoadFinished(f, locale, load); g.locale == f.locale && g.transition == f.transition
    ensures forall locale, d ::
              var g := AddTranslations(f, locale, d); g.locale == f.locale && g.transition == f.transition
  {
  }

  /**
   * A superseded call never changes the locale: once overtaken it never commits, whatever
   * loads complete and whatever calls follow, and every commit from then on is of a newer call.
   */
  lemma {:induction false} SupersededNeverCommits(w: World, steps: seq<Step>, call: CallId)
    requires Admissible(w, steps) && Overtaken(w, call)
    ensures var w' := Run(w, steps);
            && Overtaken(w', call) && w'.calls[call].transition == w.calls[call].transition
            && |w.commits| <= |w'.commits| && w'.commits[..|w.commits|] == w.commits
            && (forall i :: |w.commits| <= i < |w'.commits| ==> w.calls[call].transition < w'.commits[i].transition)
            && (|w'.commits| == |w.commits| ==> w'.fields.locale == w.fields.locale)
    decreases |steps|
  {
    if steps != [] {
      StepStaysOvertaken(w, steps[0], call);
      var w1 := Next(w, steps[0]);
      hide Next, Enabled;
      SupersededNeverCommits(w1, steps[1..], call);
      var w' := Run(w1, steps[1..]);
      assert w'.commits[..|w.commits|] == w'.commits[..|w1.commits|][..|w.commits|];
      forall i | |w.commits| <= i < |w'.commits| ensures w.calls[call].transition < w'.commits[i].transition {
        if i < |w1.commits| {
          assert w'.commits[i] == w'.commits[..|w1.commits|][i];
        }
      }
    }
  }

  /** Once the newest call has succeeded, the locale is its own. */
  lemma NewestCallWins(w: World, call: CallId)
    requires Reachable(w) && call in w.calls && w.calls[call].transition == w.fields.transition
    requires w.calls[call].status.Committed?
    ensures w.fields.locale == w.calls[call].locale
  {
    ReachableInv(w);
    var i :| 0 <= i < |w.commits| && w.commits[i] == Commit(w.calls[call].transition, w.calls[call].locale);
    assert i == |w.commits| - 1;
  }

  /** A newest call whose load succeeded does succeed when it resumes. */
  lemma NewestCallCommits(w: World, call: CallId)
    requires Reachable(w) && Enabled(w, Resumes(call)) && w.calls[call].transition == w.fields.transition
    requires w.loads[w.calls[call].status.load].phase.ok
    ensures var w' := Next(w, Resumes(call));
            w'.calls[call].status.Committed? && w'.fields.locale == w.calls[call].locale
            && w'.fields.locale in w'.fields.translations
  {
    ReachableInv(w);
  }

  /** At most one load per locale is in flight. */
  lemma OneLoadPerLocale(w: World, a: LoadId, b: LoadId)
    requires Reachable(w) && a in w.loads && b in w.loads
    requires !w.loads[a].phase.Released? && !w.loads[b].phase.Released? && w.loads[a].locale == w.loads[b].locale
    ensures a == b
  {
    ReachableInv(w);
  }

  ghost predicate InFlight(w: World, load: LoadId, locale: Locale) {
    load in w.loads && w.loads[load].locale == locale && !w.loads[load].phase.Released?
  }

  /**
   * Where a call for a locale without translations goes: it joins the load in flight for it,
   * if there is one, and starts a load of its own exactly if there is none, so that a load
   * that failed is tried again by the next call and not before.
   */
  lemma CallsLoadExactly(w: World, call: CallId, locale: Locale, newLoad: LoadId, other: LoadId)
    requires Reachable(w) && Enabled(w, SetLocale(call, locale, newLoad)) && locale !in w.fields.translations
    ensures var w' := Next(w, SetLocale(call, locale, newLoad));
            && w'.calls[call].status.Waiting?
            && (InFlight(w, other, locale) ==> w'.calls[call].status.load == other && w'.loads == w.loads)
            && ((forall l :: !InFlight(w, l, locale)) ==>
                  w'.calls[call].status.load == newLoad && w'.loads == w.loads[newLoad := Load(locale, Running)])
  {
    ReachableInv(w);
    if locale in w.fields.pendingLoads {
      assert InFlight(w, w.fields.pendingLoads[locale], locale);
    }
  }

  function Text(w: World, locale: Locale, key: string): Option<string> {
    if locale in w.fields.translations && key in w.fields.translations[locale]
    then Some(w.fields.translations[locale][key]) else None
  }

  /**
   * What is translated how: a load that arrives replaces the whole dictionary of its locale,
   * additions go before what is there, and no other step changes a text.
   */
  lemma TextsMove(w: World, step: Step, locale: Locale, key: string)
    requires Enabled(w, step)
    ensures var w' := Next(w, step);
            Text(w', locale, key) ==
            if step.Arrives? && w.loads[step.load].locale == locale
            then if key in step.dictionary then Some(step.dictionary[key]) else None
            else if step.Adds? && step.locale == locale && key in step.dictionary then Some(step.dictionary[key])
            else Text(w, locale, key)
  {
  }
}
