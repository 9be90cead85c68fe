/**
 * The compiler behind its cache: whole compilations are looked up by file name and a hash of
 * the source and the settings. Parsing, transforming and printing together are one function.
 */
module CachedTransform {
  import opened Wrappers
  import opened SourceCache
  import opened ContentHash

  /** The settings a result can depend on, and the switch for the cache. */
  datatype Config = Config(
    autoUnwrap: bool,
    autoUnwrapProps: bool,
    signalAccessors: seq<string>,
    eventHandlerPrefixes: seq<string>,
    sourceMaps: bool,
    enableCache: bool)

  /** Compiling a file's source throws on `None`; `settingsText` prints the settings as JSON. */
  datatype Compiler<!V> = Compiler(
    compile: (string, string, Config) -> Option<V>,
    settingsText: Config -> string)

  datatype Answer<V> = Answer(value: V, cached: bool)

  datatype Call = Compile(file: string, source: string, cfg: Config, at: int) | Invalidates(file: string) | Clears

  /** What is hashed to identify a compilation of a file. */
  function Text<V>(p: Compiler<V>, source: string, cfg: Config): string {
    source + ":" + HashText(p.settingsText(cfg))
  }

  function Key<V>(p: Compiler<V>, source: string, cfg: Config): string {
    HashText(Text(p, source, cfg))
  }

  function TransformSync<V>(p: Compiler<V>, c: Cache<V>, file: string, source: string, cfg: Config, now: int)
    : (Option<Answer<V>>, Cache<V>)
  {
    if !cfg.enableCache then (Direct(p, file, source, cfg), c)
    else
      var contentHash := Key(p, source, cfg);
      var (found, c1) := Get(c, file, contentHash, now);
      if found.Some? then (Some(Answer(found.value, true)), c1)
      else
        match p.compile(file, source, cfg)
        case None => (None, c1)
        case Some(v) => (Some(Answer(v, false)), Set(c1, file, contentHash, v, now))
  }

  /** Compiling without any cache. */
  function Direct<V>(p: Compiler<V>, file: string, source: string, cfg: Config): Option<Answer<V>> {
    match p.compile(file, source, cfg)
    case None => None
    case Some(v) => Some(Answer(v, false))
  }

  method TransformFile<V>(p: Compiler<V>, cache: SourceCacheImpl<V>, file: string, source: string, cfg: Config,
                          now: int)
    returns (r: Option<Answer<V>>)
    modifies cache
    ensures (r, cache.Now()) == TransformSync(p, old(cache.Now()), file, source, cfg, now)
  {
    if cfg.enableCache {
      var configHash := HashText(p.settingsText(cfg));
      var contentHash := HashText(source + ":" + configHash);
      var cached := cache.Lookup(file, contentHash, now);
      if cached.Some? {
        return Some(Answer(cached.value, true));
      }
      var result := p.compile(file, source, cfg);
      if result.None? {
        return None;
      }
      cache.Store(file, contentHash, result.value, now);
      return Some(Answer(result.value, false));
    }
    var result := p.compile(file, source, cfg);
    if result.None? {
      return None;
    }
    return Some(Answer(result.value, false));
  }

  // ---------------------------------------------------------------------------------------
  // Runs

  function Do<V>(p: Compiler<V>, c: Cache<V>, call: Call): (Option<Answer<V>>, Cache<V>) {
    match call
    case Compile(file, source, cfg, at) => TransformSync(p, c, file, source, cfg, at)
    case Invalidates(file) => (None, Invalidate(c, file))
    case Clears => (None, Cleared(c))
  }

  function Value<V>(a: Option<Answer<V>>): Option<V> {
    if a.Some? then Some(a.value.value) else None
  }

  /** The results a run of calls gets. */
  function Results<V>(p: Compiler<V>, c: Cache<V>, calls: seq<Call>): seq<Option<V>>
    decreases |calls|
  {
    if calls == [] then []
    else
      var (r, c') := Do(p, c, calls[0]);
      [Value(r)] + Results(p, c', calls[1..])
  }

  /** The results it would get with no cache at all. */
  function DirectResults<V>(p: Compiler<V>, calls: seq<Call>): seq<Option<V>> {
    if calls == [] then []
    else
      [if calls[0].Compile? then p.compile(calls[0].file, calls[0].source, calls[0].cfg) else None]
      + DirectResults(p, calls[1..])
  }

  /** Something to compile. */
  datatype Input = Input(file: string, source: string, cfg: Config)

  /** The cache is asked for one and the other with the same file name and content hash. */
  predicate Confused<V>(p: Compiler<V>, a: Input, b: Input) {
    && a.file == b.file && a.cfg.enableCache && b.cfg.enableCache
    && Key(p, a.source, a.cfg) == Key(p, b.source, b.cfg)
  }

  function Compiled<V>(p: Compiler<V>, i: Input): Option<V> {
    p.compile(i.file, i.source, i.cfg)
  }

  /** Inputs the cache confuses compile alike. */
  ghost predicate Harmless<V>(p: Compiler<V>, pool: iset<Input>) {
    forall a, b :: a in pool && b in pool && Confused(p, a, b) ==> Compiled(p, a) == Compiled(p, b)
  }

  function InputOf(c: Call): Input
    requires c.Compile?
  {
    Input(c.file, c.source, c.cfg)
  }

  ghost predicate DrawsOn(calls: seq<Call>, pool: iset<Input>) {
    forall i :: 0 <= i < |calls| && calls[i].Compile? ==> InputOf(calls[i]) in pool
  }

  function Empty<V>(): Cache<V> {
    Cache([], map[], 0, 0)
  }

  /** Every entry is the result of compiling some input of the pool, under its hash. */
  ghost predicate Earned<V(!new)>(p: Compiler<V>, c: Cache<V>, pool: iset<Input>) {
    forall k {:trigger EarnedBy(p, c, pool, k)} :: k in c.entries ==> EarnedBy(p, c, pool, k)
  }

  ghost predicate EarnedBy<V(!new)>(p: Compiler<V>, c: Cache<V>, pool: iset<Input>, k: string)
    requires k in c.entries
  {
    exists i :: i in pool && i.file == k && i.cfg.enableCache && c.entries[k].hash == Key(p, i.source, i.cfg)
                && Compiled(p, i) == Some(c.entries[k].value)
  }

  lemma StepKeepsEarned<V(!new)>(p: Compiler<V>, c: Cache<V>, call: Call, pool: iset<Input>)
    requires Valid(c) && Earned(p, c, pool) && (call.Compile? ==> InputOf(call) in pool)
    ensures var c' := Do(p, c, call).1; Valid(c') && Earned(p, c', pool)
  {
    var c' := Do(p, c, call).1;
    match call
    case Compile(file, source, cfg, at) =>
      var h := Key(p, source, cfg);
      var c1 := Get(c, file, h, at).1;
      var v := p.compile(file, source, cfg);
      GetKeepsValid(c, file, h, at);
      if v.Some? {
        EvictKeepsValid(Stored(c1, file, h, v.value, at));
      }
      forall k | k in c'.entries ensures EarnedBy(p, c', pool, k) {
        if k in c.entries && c'.entries[k].hash == c.entries[k].hash && c'.entries[k].value == c.entries[k].value {
          assert EarnedBy(p, c, pool, k);
        } else {
          assert InputOf(call).file == k;
        }
      }
    case Invalidates(file) =>
      WithoutKeepsOrder(c.order, file);
      forall k | k in c'.entries ensures EarnedBy(p, c', pool, k) {
        assert EarnedBy(p, c, pool, k);
      }
    case Clears =>
  }

  lemma GetKeepsValid<V>(c: Cache<V>, key: string, hash: string, now: int)
    requires Valid(c)
    ensures Valid(Get(c, key, hash, now).1)
  {
    WithoutKeepsOrder(c.order, key);
  }

  /** A call on an earned cache gets what compiling would give. */
  lemma RightAnswer<V(!new)>(p: Compiler<V>, c: Cache<V>, call: Call, pool: iset<Input>)
    requires Earned(p, c, pool) && Harmless(p, pool) && call.Compile? && InputOf(call) in pool
    ensures Value(Do(p, c, call).0) == Compiled(p, InputOf(call))
  {
    var r := Do(p, c, call).0;
    if r.Some? && r.value.cached {
      var k := call.file;
      assert EarnedBy(p, c, pool, k);
      var i :| i in pool && i.file == k && i.cfg.enableCache && c.entries[k].hash == Key(p, i.source, i.cfg)
               && Compiled(p, i) == Some(c.entries[k].value);
      assert Confused(p, i, InputOf(call));
    }
  }

  lemma {:induction false} RightAnswers<V(!new)>(p: Compiler<V>, c: Cache<V>, calls: seq<Call>, pool: iset<Input>)
    requires Valid(c) && Earned(p, c, pool) && Harmless(p, pool) && DrawsOn(calls, pool)
    ensures Results(p, c, calls) == DirectResults(p, calls)
    decreases |calls|
  {
    if calls != [] {
      StepKeepsEarned(p, c, calls[0], pool);
      if calls[0].Compile? {
        RightAnswer(p, c, calls[0], pool);
      }
      RightAnswers(p, Do(p, c, calls[0]).1, calls[1..], pool);
    }
  }

  /**
   * The cache cannot be noticed, in any run of compilations of some inputs, invalidations
   * and clears, at any times and whatever is evicted in between, exactly when the inputs it
   * confuses compile alike.
   */
  lemma {:induction false} TransparentExactly<V(!new)>(p: Compiler<V>, pool: iset<Input>)
    ensures (forall calls :: DrawsOn(calls, pool) ==> Results(p, Empty(), calls) == DirectResults(p, calls)) <==>
            Harmless(p, pool)
  {
    if Harmless(p, pool) {
      forall calls | DrawsOn(calls, pool) ensures Results(p, Empty(), calls) == DirectResults(p, calls) {
        RightAnswers(p, Empty(), calls, pool);
      }
    } else {
      var a, b :| a in pool && b in pool && Confused(p, a, b) && Compiled(p, a) != Compiled(p, b);
      if Compiled(p, a).Some? {
        ConfusedInTurn(p, a, b);
        assert DrawsOn(InTurn(a, b), pool);
      } else {
        ConfusedInTurn(p, b, a);
        assert DrawsOn(InTurn(b, a), pool);
      }
    }
  }

  /** One compilation right after the other. */
  function InTurn(a: Input, b: Input): seq<Call> {
    [Compile(a.file, a.source, a.cfg, 0), Compile(b.file, b.source, b.cfg, 0)]
  }

  /** The second of two confused inputs gets the result of the first. */
  lemma {:induction false} ConfusedInTurn<V(!new)>(p: Compiler<V>, a: Input, b: Input)
    requires Confused(p, a, b) && Compiled(p, a).Some?
    ensures Results(p, Empty(), InTurn(a, b)) == [Compiled(p, a), Compiled(p, a)]
    ensures DirectResults(p, InTurn(a, b)) == [Compiled(p, a), Compiled(p, b)]
  {
    var calls := InTurn(a, b);
    var h := Key(p, a.source, a.cfg);
    hide HashText;
    StoreIsBoundedExactly(Get(Empty(), a.file, h, 0).1, a.file, h, Compiled(p, a).value, 0);
    assert calls[1..] == [calls[1]] && calls[1..][1..] == [];
    var c1 := Do(p, Empty(), calls[0]).1;
    assert Results(p, c1, [calls[1]]) == [Value(Do(p, c1, calls[1]).0)];
    assert DirectResults(p, [calls[1]]) == [Compiled(p, b)];
  }

  // ---------------------------------------------------------------------------------------
  // When inputs are confused

  /** Settings that print alike are the same, apart from the cache switch. */
  ghost predicate Lawful<V>(p: Compiler<V>) {
    forall a: Config, b: Config :: p.settingsText(a) == p.settingsText(b) ==> a.(enableCache := b.enableCache) == b
  }

  lemma {:induction false} SplitAtLastColon(s1: string, h1: string, s2: string, h2: string)
    requires ':' !in h1 && ':' !in h2 && s1 + ":" + h1 == s2 + ":" + h2
    ensures s1 == s2 && h1 == h2
  {
    var t := s1 + ":" + h1;
    assert t[|s1|] == ':' && t[|s2|] == ':';
    assert forall i :: |s1| < i < |t| ==> t[i] == h1[i - |s1| - 1];
    assert forall i :: |s2| < i < |t| ==> t[i] == h2[i - |s2| - 1];
    assert |s1| == |s2|;
    assert s1 == t[..|s1|] && s2 == t[..|s2|] && h1 == t[|s1| + 1..] && h2 == t[|s2| + 1..];
  }

  /** Different inputs of one file are confused only through a collision: of the settings, or of the whole. */
  lemma OnlyCollisionsConfuse<V>(p: Compiler<V>, a: Input, b: Input)
    requires Lawful(p) && Confused(p, a, b) && a != b
    ensures var x, y := Text(p, a.source, a.cfg), Text(p, b.source, b.cfg);
            var s, t := p.settingsText(a.cfg), p.settingsText(b.cfg);
            (x != y && Hash32(x) == Hash32(y)) || (s != t && Hash32(s) == Hash32(t))
  {
    var s, t := p.settingsText(a.cfg), p.settingsText(b.cfg);
    SameHashExactly(Text(p, a.source, a.cfg), Text(p, b.source, b.cfg));
    SameHashExactly(s, t);
    PrintedWithoutColon(Hash32(s));
    PrintedWithoutColon(Hash32(t));
    if Text(p, a.source, a.cfg) == Text(p, b.source, b.cfg) {
      SplitAtLastColon(a.source, HashText(s), b.source, HashText(t));
      assert s == t ==> a.cfg.(enableCache := b.cfg.enableCache) == b.cfg;
    }
  }

  /**
   * And there are collisions: under any file name and settings, a file that held one word
   * and now holds another can be given the first one's code.
   */
  lemma {:induction false} WordsAreConfused<V(!new)>(p: Compiler<V>, file: string, cfg: Config)
    requires cfg.enableCache && p.compile(file, "costarring", cfg).Some?
    ensures var a, b := Input(file, "costarring", cfg), Input(file, "liquid", cfg);
            && a != b && Confused(p, a, b)
            && Results(p, Empty(), InTurn(a, b)) == [Compiled(p, a), Compiled(p, a)]
  {
    var a, b := Input(file, "costarring", cfg), Input(file, "liquid", cfg);
    var suffix := ":" + HashText(p.settingsText(cfg));
    hide HashText;
    WordsCollide(suffix);
    assert "costarring" + suffix == Text(p, "costarring", cfg) && "liquid" + suffix == Text(p, "liquid", cfg);
    assert |"costarring"| != |"liquid"|;
    ConfusedInTurn(p, a, b);
  }
}
