/**
 * A browser over time: cookies with a lifetime go when it is over (section 5.3 of RFC 6265),
 * and what is left decides what the next request carries.
 */
module AgingBrowser {
  import opened Wrappers
  import opened PercentEncoding
  import opened CookieSplit
  import opened Cookies
  import opened BrowserJar
  import opened ChunkReading
  import opened CookieTransport

  /** The cookies held and, for those that have one, the instant they expire. */
  datatype Browser = Browser(jar: Jar, expires: map<string, int>)

  function Drop(jar: Jar, names: set<string>): Jar {
    if jar == [] then [] else (if jar[0].0 in names then [] else [jar[0]]) + Drop(jar[1..], names)
  }

  function DeadAt(b: Browser, now: int): set<string> {
    set k | k in b.expires && b.expires[k] <= now
  }

  function Age(b: Browser, now: int): Browser {
    Browser(Drop(b.jar, DeadAt(b, now)), map k | k in b.expires && now < b.expires[k] :: b.expires[k])
  }

  /** The expiry times once the accepted cookies of a response are stored. */
  function Deadlines(expires: map<string, int>, cs: seq<SetCookie>, now: int): map<string, int>
    decreases |cs|
  {
    if cs == [] then expires
    else
      var c := cs[0];
      var next := if !Accepts(c) then expires
                  else if c.maxAge.Some? && c.maxAge.value > 0 then expires[c.name := now + 1000 * c.maxAge.value]
                  else expires - {c.name};
      Deadlines(next, cs[1..], now)
  }

  function Receive(b: Browser, cs: seq<SetCookie>, now: int): Browser {
    var aged := Age(b, now);
    Browser(ApplyAll(aged.jar, cs), Deadlines(aged.expires, cs, now))
  }

  function Sends(b: Browser, now: int): Option<string> {
    RequestHeader(Age(b, now).jar)
  }

  function NamesOf(cs: seq<SetCookie>): set<string> {
    if cs == [] then {} else {cs[0].name} + NamesOf(cs[1..])
  }

  // ---------------------------------------------------------------------------------------
  // Dropping

  lemma {:induction false} GetDrop(jar: Jar, names: set<string>, k: string)
    ensures Get(Drop(jar, names), k) == if k in names then None else Get(jar, k)
  {
    if jar != [] {
      GetDrop(jar[1..], names, k);
      if jar[0].0 !in names {
        assert Drop(jar, names)[1..] == Drop(jar[1..], names);
      } else {
        assert Drop(jar, names) == Drop(jar[1..], names);
      }
    }
  }

  lemma {:induction false} HeldDrop(jar: Jar, names: set<string>)
    requires Held(jar)
    ensures Held(Drop(jar, names))
  {
    if jar != [] {
      HeldDrop(jar[1..], names);
      GetDrop(jar[1..], names, jar[0].0);
      if jar[0].0 !in names {
        assert Drop(jar, names)[1..] == Drop(jar[1..], names);
      } else {
        assert Drop(jar, names) == Drop(jar[1..], names);
      }
    }
  }

  lemma {:induction false} DropNothing(jar: Jar)
    ensures Drop(jar, {}) == jar
  {
    if jar != [] {
      DropNothing(jar[1..]);
    }
  }

  lemma AgeTwice(b: Browser, now: int)
    ensures Age(Age(b, now), now) == Age(b, now)
  {
    assert DeadAt(Age(b, now), now) == {};
    DropNothing(Age(b, now).jar);
  }

  /** Dropping cookies lets nothing shadow that did not before. */
  lemma {:induction false} DropUnshadows(jar: Jar, names: set<string>, o: CookieOptions)
    requires Held(jar) && Unshadowed(jar, o)
    ensures Held(Drop(jar, names)) && Unshadowed(Drop(jar, names), o)
  {
    hide IsChunkOf;
    HeldDrop(jar, names);
    forall key
      ensures !HasChunk(Drop(jar, names), o.name, key) && !HasChunk(Drop(jar, names), HOST_PREFIX + o.name, key)
    {
      GetDrop(jar, names, key);
      assert !HasChunk(jar, o.name, key) && !HasChunk(jar, HOST_PREFIX + o.name, key);
    }
    GetDrop(jar, names, o.name);
  }

  // ---------------------------------------------------------------------------------------
  // The cookies of one response

  /** Well-formed cookies that all have the lifetime of the options and are accepted. */
  ghost predicate Uniform(cs: seq<SetCookie>, o: CookieOptions) {
    forall i :: 0 <= i < |cs| ==>
      Accepts(cs[i]) && cs[i].maxAge == o.maxAgeSeconds && IsToken(cs[i].name) && IsCookieValue(cs[i].value)
  }

  lemma {:induction false} ChunkWritesUniform(name: string, chunks: seq<string>, i: nat, o: CookieOptions)
    requires PlainName(o.name) && name == EffectiveName(o) && i <= |chunks|
    ensures Uniform(SerializeFrom(name, chunks, i, o), o)
    decreases |chunks| - i
  {
    if i < |chunks| {
      WritesAccepted(o, i, chunks[i]);
      EncodedValueTravels(chunks[i]);
      ChunkWritesUniform(name, chunks, i + 1, o);
    }
  }

  lemma WritesUniform(value: string, o: CookieOptions)
    requires PlainName(o.name)
    ensures Uniform(SerializeCookieChunks(value, o), o)
  {
    hide Encode, Split, IsToken, IsCookieValue, Accepts;
    var chunks := Split(value);
    if |chunks| == 1 {
      WritesAccepted(o, 0, chunks[0]);
      EncodedValueTravels(chunks[0]);
    } else {
      ChunkWritesUniform(EffectiveName(o), chunks, 0, o);
    }
  }

  lemma {:induction false} AppliedHeld(jar: Jar, cs: seq<SetCookie>, o: CookieOptions)
    requires Held(jar) && Uniform(cs, o)
    ensures Held(ApplyAll(jar, cs))
    decreases |cs|
  {
    if cs != [] {
      StoreHeld(jar, cs[0].name, cs[0].value);
      RemoveHeld(jar, cs[0].name);
      AppliedHeld(Apply(jar, cs[0]), cs[1..], o);
    }
  }

  lemma {:induction false} AppliedElsewhere(jar: Jar, cs: seq<SetCookie>, k: string)
    requires k !in NamesOf(cs)
    ensures Get(ApplyAll(jar, cs), k) == Get(jar, k)
    decreases |cs|
  {
    if cs != [] {
      GetStore(jar, cs[0].name, cs[0].value, k);
      GetRemove(jar, cs[0].name, k);
      AppliedElsewhere(Apply(jar, cs[0]), cs[1..], k);
    }
  }

  /** A cookie that is written does not depend on what was there; one written expired is gone. */
  lemma {:induction false} AppliedHere(a: Jar, b: Jar, cs: seq<SetCookie>, o: CookieOptions, k: string)
    requires k in NamesOf(cs) && Uniform(cs, o)
    ensures Get(ApplyAll(a, cs), k) == Get(ApplyAll(b, cs), k)
    ensures !Keeps(o) ==> Get(ApplyAll(a, cs), k).None?
    decreases |cs|
  {
    var a1, b1 := Apply(a, cs[0]), Apply(b, cs[0]);
    if k in NamesOf(cs[1..]) {
      AppliedHere(a1, b1, cs[1..], o, k);
    } else {
      GetStore(a, k, cs[0].value, k);
      GetStore(b, k, cs[0].value, k);
      GetRemove(a, k, k);
      GetRemove(b, k, k);
      AppliedElsewhere(a1, cs[1..], k);
      AppliedElsewhere(b1, cs[1..], k);
    }
  }

  lemma {:induction false} DeadlinesAre(expires: map<string, int>, cs: seq<SetCookie>, o: CookieOptions, now: int,
                                        k: string)
    requires Uniform(cs, o)
    ensures var after := Deadlines(expires, cs, now);
            if k !in NamesOf(cs) then (k in after <==> k in expires) && (k in after ==> after[k] == expires[k])
            else if o.maxAgeSeconds.Some? && o.maxAgeSeconds.value > 0
            then k in after && after[k] == now + 1000 * o.maxAgeSeconds.value
            else k !in after
    decreases |cs|
  {
    if cs != [] {
      var c := cs[0];
      var next := if c.maxAge.Some? && c.maxAge.value > 0 then expires[c.name := now + 1000 * c.maxAge.value]
                  else expires - {c.name};
      DeadlinesAre(next, cs[1..], o, now, k);
    }
  }

  // ---------------------------------------------------------------------------------------
  // Jars that hold the same cookies

  ghost predicate Same(a: Jar, b: Jar) {
    forall k :: Get(a, k) == Get(b, k)
  }

  lemma {:induction false} SameApplied(a: Jar, b: Jar, cs: seq<SetCookie>)
    requires Same(a, b)
    ensures Same(ApplyAll(a, cs), ApplyAll(b, cs))
    decreases |cs|
  {
    if cs != [] {
      var a1, b1 := Apply(a, cs[0]), Apply(b, cs[0]);
      forall k ensures Get(a1, k) == Get(b1, k) {
        GetStore(a, cs[0].name, cs[0].value, k);
        GetStore(b, cs[0].name, cs[0].value, k);
        GetRemove(a, cs[0].name, k);
        GetRemove(b, cs[0].name, k);
      }
      SameApplied(a1, b1, cs[1..]);
    }
  }

  lemma {:induction false} SameValuesFrom(a: Jar, b: Jar, name: string, i: nat, n: nat)
    requires Same(a, b) && i <= n
    ensures ValuesFrom(a, name, i, n) == ValuesFrom(b, name, i, n)
    decreases n - i
  {
    if i < n {
      SameValuesFrom(a, b, name, i + 1, n);
    }
  }

  lemma {:induction false} SameAssembles(a: Jar, b: Jar, name: string)
    requires Same(a, b) && NoDuplicates(a) && NoDuplicates(b)
    ensures ChunkNamesFor(a, name) == [] <==> ChunkNamesFor(b, name) == []
    ensures Assemble(a, name, ChunkNamesFor(a, name), 0) == Assemble(b, name, ChunkNamesFor(b, name), 0)
  {
    hide IsChunkOf, Assemble, ChunkNamesFor;
    NoChunksNoNames(a, name);
    NoChunksNoNames(b, name);
    OnlyWholeReads(a, name);
    OnlyWholeReads(b, name);
    assert forall key :: HasChunk(a, name, key) <==> HasChunk(b, name, key);
    forall n: nat | Whole(a, name, n) || Whole(b, name, n)
      ensures Assemble(a, name, ChunkNamesFor(a, name), 0) == Assemble(b, name, ChunkNamesFor(b, name), 0)
    {
      assert Whole(a, name, n) && Whole(b, name, n);
      WholeReads(a, name, n);
      WholeReads(b, name, n);
      SameValuesFrom(a, b, name, 0, n);
    }
  }

  /** What is read back depends only on which cookies are held, not on their order. */
  lemma {:induction false} SameReadsAlike(a: Jar, b: Jar, name: string)
    requires Held(a) && Held(b) && Same(a, b)
    ensures ReadBack(a, name) == ReadBack(b, name)
  {
    hide Assemble, ChunkNamesFor;
    HeaderRoundTrip(a);
    HeaderRoundTrip(b);
    ReceivedIsAJar(a);
    ReceivedIsAJar(b);
    forall k ensures Get(Received(a), k) == Get(Received(b), k) {
      GetReceived(a, k);
      GetReceived(b, k);
    }
    SameAssembles(Received(a), Received(b), name);
    SameAssembles(Received(a), Received(b), HOST_PREFIX + name);
  }

  // ---------------------------------------------------------------------------------------
  // A response, seen later

  /** A cookie written at `at` is still held at `now`. */
  predicate Lasts(o: CookieOptions, at: int, now: int) {
    o.maxAgeSeconds.None? || now < at + 1000 * o.maxAgeSeconds.value
  }

  /**
   * What one write leaves at a later instant: as long as it lasts, what it would have left
   * on the cookies that are still alive by then; after that, those without the ones it wrote.
   */
  lemma WriteSeenLater(b: Browser, value: string, o: CookieOptions, at: int, now: int)
    requires PlainName(o.name) && at <= now
    ensures var cs := SerializeCookieChunks(value, o);
            var b1 := Receive(b, cs, at);
            && (Lasts(o, at, now) ==> Same(Drop(b1.jar, DeadAt(b1, now)),
                                           Written(Drop(b.jar, DeadAt(b, now)), value, o)))
            && (!Lasts(o, at, now) ==>
                  forall k :: k !in DeadAt(b1, now) ==>
                    Get(b1.jar, k) == if k in DeadAt(b, now) + NamesOf(cs) then None else Get(b.jar, k))
            && (!Lasts(o, at, now) ==> forall k :: k in DeadAt(b1, now) ==> k in DeadAt(b, now) + NamesOf(cs))
  {
    var cs := SerializeCookieChunks(value, o);
    var b1 := Receive(b, cs, at);
    var later := Drop(b.jar, DeadAt(b, now));
    WritesUniform(value, o);
    hide SerializeCookieChunks, Uniform;
    forall k
      ensures Lasts(o, at, now) ==> Get(Drop(b1.jar, DeadAt(b1, now)), k) == Get(ApplyAll(later, cs), k)
      ensures !Lasts(o, at, now) && k !in DeadAt(b1, now) ==>
                Get(b1.jar, k) == if k in DeadAt(b, now) + NamesOf(cs) then None else Get(b.jar, k)
      ensures !Lasts(o, at, now) && k in DeadAt(b1, now) ==> k in DeadAt(b, now) + NamesOf(cs)
    {
      KeySeenLater(b, cs, o, at, now, k);
    }
  }

  lemma {:induction false} KeySeenLater(b: Browser, cs: seq<SetCookie>, o: CookieOptions, at: int, now: int, k: string)
    requires Uniform(cs, o) && at <= now
    ensures var b1 := Receive(b, cs, at);
            && (Lasts(o, at, now) ==>
                  Get(Drop(b1.jar, DeadAt(b1, now)), k) == Get(ApplyAll(Drop(b.jar, DeadAt(b, now)), cs), k))
            && (!Lasts(o, at, now) && k !in DeadAt(b1, now) ==>
                  Get(b1.jar, k) == if k in DeadAt(b, now) + NamesOf(cs) then None else Get(b.jar, k))
            && (!Lasts(o, at, now) && k in DeadAt(b1, now) ==> k in DeadAt(b, now) + NamesOf(cs))
  {
    hide Uniform, ApplyAll, Deadlines;
    var aged := Age(b, at);
    var b1 := Receive(b, cs, at);
    var later := Drop(b.jar, DeadAt(b, now));
    GetDrop(b1.jar, DeadAt(b1, now), k);
    GetDrop(b.jar, DeadAt(b, at), k);
    GetDrop(b.jar, DeadAt(b, now), k);
    DeadlinesAre(aged.expires, cs, o, at, k);
    if k in NamesOf(cs) {
      AppliedHere(aged.jar, later, cs, o, k);
    } else {
      AppliedElsewhere(aged.jar, cs, k);
      AppliedElsewhere(later, cs, k);
    }
  }
}
