/**
 * The session cookie's journey: written by the server, kept by a browser that may hold any
 * other cookies, sent back, parsed and reassembled. The value always survives the journey
 * exactly when no stale chunk can shadow it, which clearing first achieves exactly when the
 * browser accepts the deletions.
 */
module CookieTransport {
  import opened Wrappers
  import opened PercentEncoding
  import opened CookieSplit
  import opened Cookies
  import opened BrowserJar
  import opened ChunkReading
  import Decimal

  /**
   * Cookie names for which the reader's pattern means what it says: letters, digits, dots,
   * hyphens and underscores, and not one of the names the configuration refuses.
   */
  predicate PlainName(name: string) {
    && name != ""
    && (forall i :: 0 <= i < |name| ==>
          'A' <= name[i] <= 'Z' || 'a' <= name[i] <= 'z' || '0' <= name[i] <= '9' ||
          name[i] == '.' || name[i] == '-' || name[i] == '_')
    && name !in FORBIDDEN_COOKIE_NAMES
    && !(HOST_PREFIX <= name) && !("__Secure-" <= name)
  }

  /** The value the server reads back on the next request, from the cookies the browser holds. */
  function ReadBack(jar: Jar, name: string): Option<string> {
    ReadCookie(ParseHeader(RequestHeader(jar)), name)
  }

  function Written(jar: Jar, value: string, o: CookieOptions): Jar {
    ApplyAll(jar, SerializeCookieChunks(value, o))
  }

  function Cleared(jar: Jar, o: CookieOptions): Jar {
    ApplyAll(jar, ClearCookieChunks(ParseHeader(RequestHeader(jar)), o))
  }

  /** Written cookies are kept rather than expired on arrival. */
  predicate Keeps(o: CookieOptions) {
    o.maxAgeSeconds.Some? ==> o.maxAgeSeconds.value > 0
  }

  /** Nothing in the jar can shadow a freshly written value, of any length. */
  ghost predicate Unshadowed(jar: Jar, o: CookieOptions) {
    && NoChunks(jar, o.name)
    && NoChunks(jar, HOST_PREFIX + o.name)
    && (QualifiesForHostPrefix(o) ==> !Has(jar, o.name))
  }

  // ---------------------------------------------------------------------------------------
  // Names

  lemma PlainNamesAreTokens(name: string, digits: string)
    requires PlainName(name) && forall i :: 0 <= i < |digits| ==> Decimal.IsDigit(digits[i])
    ensures IsToken(name) && IsToken(HOST_PREFIX + name)
    ensures IsToken(name + "." + digits) && IsToken(HOST_PREFIX + name + "." + digits)
  {
  }

  /** A chunk name that starts with the prefix belongs to a name that does. */
  lemma PrefixShared(key: string, name: string)
    requires IsChunkOf(key, name) && HOST_PREFIX <= key
    ensures HOST_PREFIX <= name
  {
    assert forall i :: 0 <= i < 7 ==> key[i] == HOST_PREFIX[i] != '.';
    assert |name| >= 7;
    assert name == key[..|name|];
  }

  /** The two spellings never claim each other's names or chunks. */
  lemma SpellingsApart(name: string, key: string)
    requires PlainName(name)
    ensures !(IsChunkOf(key, name) && IsChunkOf(key, HOST_PREFIX + name))
    ensures !IsChunkOf(name, name) && !IsChunkOf(HOST_PREFIX + name, HOST_PREFIX + name)
    ensures !IsChunkOf(name, HOST_PREFIX + name) && !IsChunkOf(HOST_PREFIX + name, name)
  {
    var prefixed := HOST_PREFIX + name;
    if IsChunkOf(prefixed, name) {
      PrefixShared(prefixed, name);
    }
    assert IsChunkOf(key, prefixed) ==> key[..|prefixed|][..7] == key[..7];
    if IsChunkOf(key, prefixed) && IsChunkOf(key, name) {
      PrefixShared(key, name);
    }
  }

  lemma {:induction false} ReceivedIsAJar(jar: Jar)
    requires Held(jar)
    ensures NoDuplicates(Received(jar))
  {
    if jar != [] {
      ReceivedIsAJar(jar[1..]);
      GetReceived(jar[1..], jar[0].0);
      if jar[0].0 in FORBIDDEN_COOKIE_NAMES {
        assert Received(jar) == Received(jar[1..]);
      } else {
        assert Received(jar)[1..] == Received(jar[1..]);
      }
    }
  }

  // ---------------------------------------------------------------------------------------
  // Writing

  /** An encoded value is stored and received unharmed. */
  lemma {:induction false} EncodedValueTravels(value: string)
    ensures IsCookieValue(Encode(value)) && DecodeOrRaw(Trim(Encode(value))) == value
  {
    hide Encode, Decode;
    EncodeChars(value);
    DecodeEncode(value);
    var e := Encode(value);
    assert Trim(e) == e by {
      if e != "" {
        assert EncodedChar(e[0]) && EncodedChar(e[|e| - 1]);
      }
    }
  }

  /** The names a session cookie is written under, and that the browser accepts them. */
  lemma WritesAccepted(o: CookieOptions, i: nat, value: string)
    requires PlainName(o.name)
    ensures var name := EffectiveName(o);
            && IsToken(name) && IsToken(ChunkName(name, i))
            && name !in FORBIDDEN_COOKIE_NAMES && ChunkName(name, i) !in FORBIDDEN_COOKIE_NAMES
            && Accepts(SerializeOne(name, value, o, None, None))
            && Accepts(SerializeOne(ChunkName(name, i), value, o, None, None))
  {
    var name := EffectiveName(o);
    var chunk := ChunkName(name, i);
    Decimal.PrintReads(i);
    PlainNamesAreTokens(o.name, Decimal.Print(i));
    ForbiddenWords();
    assert o.name !in FORBIDDEN_COOKIE_NAMES && !(HOST_PREFIX <= o.name);
    hide PlainName, IsToken, Decimal.Print, Encode;
    ChunkNameFacts(name, i);
    assert chunk[|name|] == '.';
    if !QualifiesForHostPrefix(o) && HOST_PREFIX <= chunk {
      PrefixShared(chunk, name);
    }
  }

  lemma ForbiddenWords()
    ensures forall word {:trigger word in FORBIDDEN_COOKIE_NAMES} ::
              word in FORBIDDEN_COOKIE_NAMES ==> '.' !in word && !(HOST_PREFIX <= word)
  {
    forall word | word in FORBIDDEN_COOKIE_NAMES ensures '.' !in word && !(HOST_PREFIX <= word) {
      assert word[2] != HOST_PREFIX[2];
    }
  }

  lemma {:induction false} ChunksStored(jar: Jar, chunks: seq<string>, i: nat, o: CookieOptions)
    requires Held(jar) && PlainName(o.name) && Keeps(o) && i <= |chunks|
    ensures var name := EffectiveName(o);
            var jar' := ApplyAll(jar, SerializeFrom(name, chunks, i, o));
            && Held(jar')
            && (forall j :: i <= j < |chunks| ==> Get(jar', ChunkName(name, j)) == Some(Encode(chunks[j])))
            && (forall k :: (forall j :: i <= j < |chunks| ==> k != ChunkName(name, j)) ==> Get(jar', k) == Get(jar, k))
    decreases |chunks| - i
  {
    if i < |chunks| {
      var name := EffectiveName(o);
      var key := ChunkName(name, i);
      var one := SerializeOne(key, chunks[i], o, None, None);
      WritesAccepted(o, i, chunks[i]);
      EncodedValueTravels(chunks[i]);
      var jar1 := Store(jar, key, Encode(chunks[i]));
      StoreHeld(jar, key, Encode(chunks[i]));
      assert Apply(jar, one) == jar1;
      assert SerializeFrom(name, chunks, i, o)[1..] == SerializeFrom(name, chunks, i + 1, o);
      ChunksStored(jar1, chunks, i + 1, o);
      var jar' := ApplyAll(jar1, SerializeFrom(name, chunks, i + 1, o));
      assert ApplyAll(jar, SerializeFrom(name, chunks, i, o)) == jar';
      forall j | i + 1 <= j < |chunks| ensures ChunkName(name, j) != key {
        if ChunkName(name, j) == key { ChunkNameInjective(name, i, j); }
      }
      GetStore(jar, key, Encode(chunks[i]), key);
      forall k | forall j :: i <= j < |chunks| ==> k != ChunkName(name, j)
        ensures Get(jar', k) == Get(jar, k)
      {
        GetStore(jar, key, Encode(chunks[i]), k);
      }
    }
  }

  /** After writing chunks over a jar that has none, the jar received holds exactly those. */
  lemma {:induction false} ChunksAreWhole(jar: Jar, value: string, o: CookieOptions)
    requires Held(jar) && PlainName(o.name) && Keeps(o) && !Fits(value)
    requires NoChunks(jar, EffectiveName(o))
    ensures var name, chunks := EffectiveName(o), Split(value);
            var jar' := Received(Written(jar, value, o));
            && Held(Written(jar, value, o))
            && |chunks| >= 2 && Whole(jar', name, |chunks|)
            && ValuesFrom(jar', name, 0, |chunks|) == value
            && forall key :: !IsChunkOf(key, name) ==> Get(Written(jar, value, o), key) == Get(jar, key)
  {
    hide Encode, Decode, Fits;
    var name, chunks := EffectiveName(o), Split(value);
    var kept := Written(jar, value, o);
    var jar' := Received(kept);
    SplitCorrect(value, []);
    OversizeSplits(value);
    ChunksStored(jar, chunks, 0, o);
    forall key | !IsChunkOf(key, name) ensures Get(kept, key) == Get(jar, key) {
      forall j | 0 <= j < |chunks| ensures key != ChunkName(name, j) { ChunkNameFacts(name, j); }
    }
    forall j | 0 <= j < |chunks| ensures Get(jar', ChunkName(name, j)) == Some(chunks[j]) {
      WritesAccepted(o, j, chunks[j]);
      EncodedValueTravels(chunks[j]);
      GetReceived(kept, ChunkName(name, j));
    }
    forall key ensures HasChunk(jar', name, key) <==> key in Numbered(name, |chunks|) {
      if key in Numbered(name, |chunks|) {
        var j :| 0 <= j < |chunks| && key == ChunkName(name, j);
        ChunkNameFacts(name, j);
      } else if HasChunk(jar', name, key) {
        GetReceived(kept, key);
        assert !HasChunk(jar, name, key);
        forall j | 0 <= j < |chunks| ensures key != ChunkName(name, j) {
          assert Numbered(name, |chunks|)[j] == ChunkName(name, j);
        }
      }
    }
    ValuesAreChunks(jar', name, chunks, 0);
    assert chunks[0..] == chunks;
  }

  lemma {:induction false} ValuesAreChunks(jar: Jar, name: string, chunks: seq<string>, i: nat)
    requires i <= |chunks|
    requires forall j :: i <= j < |chunks| ==> Get(jar, ChunkName(name, j)) == Some(chunks[j])
    ensures ValuesFrom(jar, name, i, |chunks|) == Concat(chunks[i..])
    decreases |chunks| - i
  {
    if i < |chunks| {
      ValuesAreChunks(jar, name, chunks, i + 1);
      assert chunks[i..][1..] == chunks[i + 1..];
    }
  }

  /** A value that fits travels under the bare name. */
  lemma {:induction false} BareStored(jar: Jar, value: string, o: CookieOptions)
    requires Held(jar) && PlainName(o.name) && Keeps(o) && Fits(value)
    ensures var kept := Written(jar, value, o);
            && Held(kept) && kept == Store(jar, EffectiveName(o), Encode(value))
            && Get(Received(kept), EffectiveName(o)) == Some(value)
            && forall key :: key != EffectiveName(o) ==> Get(kept, key) == Get(jar, key)
  {
    hide Encode, Decode, Fits;
    var name := EffectiveName(o);
    var kept := Store(jar, name, Encode(value));
    assert Split(value) == [value];
    WritesAccepted(o, 0, value);
    EncodedValueTravels(value);
    var one := SerializeOne(name, value, o, None, None);
    assert Written(jar, value, o) == ApplyAll(Apply(jar, one), [one][1..]) == Apply(jar, one);
    StoreHeld(jar, name, Encode(value));
    forall key ensures Get(kept, key) == if key == name then Some(Encode(value)) else Get(jar, key) {
      GetStore(jar, name, Encode(value), key);
    }
    GetReceived(kept, name);
  }

  lemma {:induction false} NoChunksReceived(jar: Jar, name: string)
    requires Held(jar) && NoChunks(jar, name)
    ensures NoChunks(Received(jar), name) && ChunkNamesFor(Received(jar), name) == []
  {
    forall key ensures !HasChunk(Received(jar), name, key) {
      GetReceived(jar, key);
      assert !HasChunk(jar, name, key);
    }
    ReceivedIsAJar(jar);
    NoChunksNoNames(Received(jar), name);
  }

  /** What is written is read back, whatever else the browser holds, unless something shadows it. */
  lemma {:induction false} WriteThenRead(jar: Jar, value: string, o: CookieOptions)
    requires Held(jar) && PlainName(o.name) && Keeps(o) && Unshadowed(jar, o)
    ensures ReadBack(Written(jar, value, o), o.name) == Some(value)
  {
    hide Encode, Decode, Fits;
    var name, prefixed := o.name, HOST_PREFIX + o.name;
    var kept := Written(jar, value, o);
    var jar' := Received(kept);
    SpellingsApart(name, "");
    if Fits(value) {
      BareStored(jar, value, o);
      HeaderRoundTrip(kept);
      assert NoChunks(kept, name) && NoChunks(kept, prefixed) by {
        forall key ensures !HasChunk(kept, name, key) && !HasChunk(kept, prefixed, key) {
          assert !HasChunk(jar, name, key) && !HasChunk(jar, prefixed, key);
        }
      }
      NoChunksReceived(kept, name);
      NoChunksReceived(kept, prefixed);
      if QualifiesForHostPrefix(o) {
        GetReceived(kept, name);
      }
    } else {
      ChunksAreWhole(jar, value, o);
      HeaderRoundTrip(kept);
      ReceivedIsAJar(kept);
      var n := |Split(value)|;
      WholeReads(jar', EffectiveName(o), n);
      assert Numbered(EffectiveName(o), n) != [];
      if !QualifiesForHostPrefix(o) {
        forall key ensures !HasChunk(kept, prefixed, key) {
          SpellingsApart(name, key);
          assert !HasChunk(jar, prefixed, key);
        }
        NoChunksReceived(kept, prefixed);
      }
    }
  }

  // ---------------------------------------------------------------------------------------
  // When writing alone is enough

  /** Jars that differ at most in the value of one cookie. */
  predicate Twins(a: Jar, b: Jar, except: string) {
    |a| == |b| &&
    forall i :: 0 <= i < |a| ==> a[i].0 == b[i].0 && (a[i].0 != except ==> a[i].1 == b[i].1)
  }

  lemma {:induction false} StoredTwins(jar: Jar, name: string, x: string, y: string)
    ensures Twins(Received(Store(jar, name, x)), Received(Store(jar, name, y)), name)
  {
    hide Trim, DecodeOrRaw;
    var a, b := Store(jar, name, x), Store(jar, name, y);
    assert Received([]) == [];
    if jar != [] && jar[0].0 != name {
      StoredTwins(jar[1..], name, x, y);
      assert a[1..] == Store(jar[1..], name, x) && b[1..] == Store(jar[1..], name, y);
    } else {
      assert a[1..] == b[1..] == if jar == [] then [] else jar[1..];
    }
  }

  lemma {:induction false} TwinsAgree(a: Jar, b: Jar, except: string, k: string)
    requires Twins(a, b, except)
    ensures Has(a, k) <==> Has(b, k)
    ensures k != except ==> Get(a, k) == Get(b, k)
  {
    if a != [] {
      TwinsAgree(a[1..], b[1..], except, k);
    }
  }

  lemma {:induction false} TwinsSameChunks(a: Jar, b: Jar, except: string, name: string)
    requires Twins(a, b, except)
    ensures MatchingKeys(a, name) == MatchingKeys(b, name)
  {
    if a != [] {
      TwinsSameChunks(a[1..], b[1..], except, name);
    }
  }

  lemma {:induction false} TwinsAssembleAlike(a: Jar, b: Jar, except: string, name: string, names: seq<string>, i: nat)
    requires Twins(a, b, except) && i <= |names| && except !in names
    ensures Assemble(a, name, names, i) == Assemble(b, name, names, i)
    decreases |names| - i
  {
    if i < |names| {
      TwinsAssembleAlike(a, b, except, name, names, i + 1);
      TwinsAgree(a, b, except, names[i]);
    }
  }

  lemma ChunksExclude(jar: Jar, name: string, key: string)
    requires !IsChunkOf(key, name)
    ensures key !in ChunkNamesFor(jar, name)
  {
  }

  /** In a shadowed jar the cookie that was just written bare is not what is read. */
  lemma {:induction false} ShadowedReadsIgnoreWrites(jar: Jar, o: CookieOptions, a: Jar, b: Jar)
    requires Held(jar) && PlainName(o.name) && !Unshadowed(jar, o)
    requires Held(a) && Held(b) && Twins(Received(a), Received(b), EffectiveName(o))
    requires forall key :: key != EffectiveName(o) ==> Get(a, key) == Get(jar, key)
    ensures ReadCookie(Received(a), o.name) == ReadCookie(Received(b), o.name)
  {
    var name, prefixed, e := o.name, HOST_PREFIX + o.name, EffectiveName(o);
    var ra, rb := Received(a), Received(b);
    SpellingsApart(name, "");
    TwinsSameChunks(ra, rb, e, name);
    TwinsSameChunks(ra, rb, e, prefixed);
    ChunksExclude(ra, name, e);
    ChunksExclude(ra, prefixed, e);
    TwinsAssembleAlike(ra, rb, e, name, ChunkNamesFor(ra, name), 0);
    TwinsAssembleAlike(ra, rb, e, prefixed, ChunkNamesFor(ra, prefixed), 0);
    if ChunkNamesFor(ra, name) == [] && ChunkNamesFor(ra, prefixed) == [] {
      ReceivedIsAJar(a);
      NoChunksNoNames(ra, name);
      NoChunksNoNames(ra, prefixed);
      NoneShadowing(jar, o, a);
      assert QualifiesForHostPrefix(o) && Has(jar, name);
      assert Get(a, name) == Get(jar, name);
      GetReceived(a, name);
      TwinsAgree(ra, rb, e, name);
    }
  }

  /** Chunks the server receives nothing of were not held in the first place. */
  lemma {:induction false} NoneShadowing(jar: Jar, o: CookieOptions, a: Jar)
    requires PlainName(o.name) && Held(a)
    requires forall key :: key != EffectiveName(o) ==> Get(a, key) == Get(jar, key)
    requires NoChunks(Received(a), o.name) && NoChunks(Received(a), HOST_PREFIX + o.name)
    ensures NoChunks(jar, o.name) && NoChunks(jar, HOST_PREFIX + o.name)
  {
    var name, prefixed := o.name, HOST_PREFIX + o.name;
    SpellingsApart(name, "");
    forall key ensures !HasChunk(jar, name, key) && !HasChunk(jar, prefixed, key) {
      assert !HasChunk(Received(a), name, key) && !HasChunk(Received(a), prefixed, key);
      GetReceived(a, key);
      ChunksNotForbidden(key, name);
      ChunksNotForbidden(key, prefixed);
    }
  }

  lemma ChunksNotForbidden(key: string, name: string)
    ensures IsChunkOf(key, name) ==> key !in FORBIDDEN_COOKIE_NAMES
  {
    assert forall word :: word in FORBIDDEN_COOKIE_NAMES ==> '.' !in word;
  }

  /**
   * Writing without clearing works for every value exactly when nothing shadows the cookie
   * and the browser is told to keep it.
   */
  lemma {:induction false} WritesReadBackExactly(jar: Jar, o: CookieOptions)
    requires Held(jar) && PlainName(o.name)
    ensures (forall value :: ReadBack(Written(jar, value, o), o.name) == Some(value)) <==>
            Keeps(o) && Unshadowed(jar, o)
  {
    if Keeps(o) && Unshadowed(jar, o) {
      forall value ensures ReadBack(Written(jar, value, o), o.name) == Some(value) {
        WriteThenRead(jar, value, o);
      }
    } else {
      var a, b := Written(jar, "a", o), Written(jar, "b", o);
      assert ReadBack(a, o.name) == ReadBack(b, o.name) by {
        ShortValuesReadAlike(jar, o);
      }
      assert ReadBack(a, o.name) != Some("a") || ReadBack(b, o.name) != Some("b");
    }
  }

  lemma {:induction false} ShortValuesReadAlike(jar: Jar, o: CookieOptions)
    requires Held(jar) && PlainName(o.name) && !(Keeps(o) && Unshadowed(jar, o))
    ensures ReadBack(Written(jar, "a", o), o.name) == ReadBack(Written(jar, "b", o), o.name)
  {
    assert Fits("a") && Fits("b") by {
      EncodedCharLength('a');
      EncodedCharLength('b');
    }
    if Keeps(o) {
      BareStored(jar, "a", o);
      BareStored(jar, "b", o);
      var a, b := Written(jar, "a", o), Written(jar, "b", o);
      StoredTwins(jar, EffectiveName(o), Encode("a"), Encode("b"));
      HeaderRoundTrip(a);
      HeaderRoundTrip(b);
      ShadowedReadsIgnoreWrites(jar, o, a, b);
    } else {
      WritesAccepted(o, 0, "a");
      WritesAccepted(o, 0, "b");
      ExpiredOnArrival(jar, "a", o);
      ExpiredOnArrival(jar, "b", o);
    }
  }

  lemma {:induction false} ExpiredOnArrival(jar: Jar, value: string, o: CookieOptions)
    requires PlainName(o.name) && !Keeps(o) && Fits(value)
    ensures Written(jar, value, o) == Remove(jar, EffectiveName(o))
  {
    hide Encode, Fits;
    var one := SerializeOne(EffectiveName(o), value, o, None, None);
    WritesAccepted(o, 0, value);
    assert Written(jar, value, o) == ApplyAll(Apply(jar, one), [one][1..]) == Apply(jar, one);
  }

  // ---------------------------------------------------------------------------------------
  // Clearing

  /** The browser accepts deletions of `__Host-` cookies sent with these options. */
  predicate Deletable(o: CookieOptions) {
    (o.secure || o.sameSite == CrossSite) && o.path == "/" && o.domain.None?
  }

  predicate Removes(o: CookieOptions, key: string) {
    HOST_PREFIX <= key ==> Deletable(o)
  }

  lemma {:induction false} ClearAllRemoves(jar: Jar, names: seq<string>, o: CookieOptions)
    requires Held(jar)
    ensures var jar' := ApplyAll(jar, ClearAll(names, o));
            && Held(jar')
            && forall key :: Get(jar', key) == if key in names && Removes(o, key) then None else Get(jar, key)
    decreases |names|
  {
    if names != [] {
      var jar1 := Apply(jar, ClearOne(names[0], o));
      if Removes(o, names[0]) {
        RemoveHeld(jar, names[0]);
      }
      assert ClearAll(names, o)[1..] == ClearAll(names[1..], o);
      ClearAllRemoves(jar1, names[1..], o);
      forall key ensures Get(ApplyAll(jar, ClearAll(names, o)), key) ==
                         if key in names && Removes(o, key) then None else Get(jar, key)
      {
        GetRemove(jar, names[0], key);
        assert key in names <==> key == names[0] || key in names[1..];
      }
    }
  }

  /** Clearing removes both spellings of the cookie and of its chunks, where deletion is accepted. */
  lemma {:induction false} ClearedHolds(jar: Jar, o: CookieOptions, key: string)
    requires Held(jar) && PlainName(o.name)
    ensures Held(Cleared(jar, o))
    ensures Get(Cleared(jar, o), key) ==
            if (key == o.name || key == HOST_PREFIX + o.name
                || IsChunkOf(key, o.name) || IsChunkOf(key, HOST_PREFIX + o.name))
               && Removes(o, key)
            then None else Get(jar, key)
  {
    var name, prefixed := o.name, HOST_PREFIX + o.name;
    var received := Received(jar);
    HeaderRoundTrip(jar);
    ReceivedIsAJar(jar);
    ChunkNamesAre(received, name);
    ChunkNamesAre(received, prefixed);
    ClearAllRemoves(jar, PresentNames(received, name), o);
    GetReceived(jar, key);
    ChunksNotForbidden(key, name);
    ChunksNotForbidden(key, prefixed);
    WritesAccepted(o.(hostPrefix := true, secure := true, path := "/", domain := None), 0, "");
    assert key in PresentNames(received, name) <==>
           (Has(received, key) && (key == name || key == prefixed || IsChunkOf(key, name) || IsChunkOf(key, prefixed)));
  }

  /** Clearing unshadows the cookie exactly when the browser accepts it, or had nothing to refuse. */
  lemma {:induction false} ClearUnshadows(jar: Jar, o: CookieOptions)
    requires Held(jar) && PlainName(o.name)
    ensures Held(Cleared(jar, o))
    ensures Unshadowed(Cleared(jar, o), o) <==> Deletable(o) || NoChunks(jar, HOST_PREFIX + o.name)
  {
    hide PlainName, Held, Cleared, IsChunkOf, Get;
    var prefixed := HOST_PREFIX + o.name;
    ClearedHolds(jar, o, o.name);
    forall key ensures !HasChunk(Cleared(jar, o), o.name, key) {
      ClearedChunks(jar, o, key);
    }
    forall key ensures HasChunk(Cleared(jar, o), prefixed, key) <==> HasChunk(jar, prefixed, key) && !Deletable(o) {
      ClearedChunks(jar, o, key);
    }
    NotPrefixed(o.name);
    if !Deletable(o) && !NoChunks(jar, prefixed) {
      var key :| HasChunk(jar, prefixed, key);
      assert HasChunk(Cleared(jar, o), prefixed, key);
    }
  }

  lemma NotPrefixed(name: string)
    requires PlainName(name)
    ensures !(HOST_PREFIX <= name)
  {
  }

  /** Chunks of the plain spelling are gone; those of the prefixed one too, if the browser deletes them. */
  lemma {:induction false} ClearedChunks(jar: Jar, o: CookieOptions, key: string)
    requires Held(jar) && PlainName(o.name)
    ensures !HasChunk(Cleared(jar, o), o.name, key)
    ensures var prefixed := HOST_PREFIX + o.name;
            HasChunk(Cleared(jar, o), prefixed, key) <==> HasChunk(jar, prefixed, key) && !Deletable(o)
  {
    hide Held, Cleared, Get;
    var prefixed := HOST_PREFIX + o.name;
    ClearedHolds(jar, o, key);
    if IsChunkOf(key, o.name) && HOST_PREFIX <= key {
      PrefixShared(key, o.name);
    }
    if IsChunkOf(key, prefixed) {
      assert key[..|prefixed|][..7] == key[..7];
    }
  }

  /**
   * Clearing and then writing reads back every value, over any browser state, exactly when
   * the browser keeps what is written and no undeletable `__Host-` chunk is left behind.
   */
  lemma {:induction false} ClearThenWriteReadsBack(jar: Jar, o: CookieOptions)
    requires Held(jar) && PlainName(o.name)
    ensures (forall value :: ReadBack(Written(Cleared(jar, o), value, o), o.name) == Some(value)) <==>
            Keeps(o) && (Deletable(o) || NoChunks(jar, HOST_PREFIX + o.name))
  {
    ClearUnshadows(jar, o);
    WritesReadBackExactly(Cleared(jar, o), o);
  }

  /** Clearing alone leaves nothing to read, in every browser, exactly when deletions are accepted. */
  lemma ClearedReadsNothing(o: CookieOptions)
    requires PlainName(o.name)
    ensures (forall jar :: Held(jar) ==> ReadBack(Cleared(jar, o), o.name) == None) <==> Deletable(o)
  {
    var name, prefixed := o.name, HOST_PREFIX + o.name;
    if Deletable(o) {
      forall jar | Held(jar) ensures ReadBack(Cleared(jar, o), name) == None {
        NothingLeft(jar, o);
      }
    } else {
      var jar: Jar := [(prefixed, "x")];
      PlainNamesAreTokens(name, "");
      assert Held(jar);
      LeftBehind(jar, o);
    }
  }

  lemma {:induction false} NothingLeft(jar: Jar, o: CookieOptions)
    requires Held(jar) && PlainName(o.name) && Deletable(o)
    ensures ReadBack(Cleared(jar, o), o.name) == None
    ensures var cleared := Cleared(jar, o);
            && Held(cleared) && NoChunks(cleared, o.name) && NoChunks(cleared, HOST_PREFIX + o.name)
            && !Has(cleared, o.name) && !Has(cleared, HOST_PREFIX + o.name)
  {
    var name, prefixed := o.name, HOST_PREFIX + o.name;
    var cleared := Cleared(jar, o);
    forall key ensures !HasChunk(cleared, name, key) && !HasChunk(cleared, prefixed, key) {
      ClearedHolds(jar, o, key);
    }
    ClearedHolds(jar, o, name);
    ClearedHolds(jar, o, prefixed);
    NothingIsRead(cleared, name);
  }

  lemma {:induction false} NothingIsRead(jar: Jar, name: string)
    requires Held(jar) && NoChunks(jar, name) && NoChunks(jar, HOST_PREFIX + name)
    requires !Has(jar, name) && !Has(jar, HOST_PREFIX + name)
    ensures ReadBack(jar, name) == None
  {
    HeaderRoundTrip(jar);
    NoChunksReceived(jar, name);
    NoChunksReceived(jar, HOST_PREFIX + name);
    GetReceived(jar, name);
    GetReceived(jar, HOST_PREFIX + name);
  }

  /** Without chunks and without the plain spelling, the prefixed cookie is what is read. */
  lemma {:induction false} PrefixedIsRead(jar: Jar, o: CookieOptions)
    requires PlainName(o.name) && Held(jar)
    requires NoChunks(jar, o.name) && NoChunks(jar, HOST_PREFIX + o.name) && Has(jar, HOST_PREFIX + o.name)
    ensures ReadBack(jar, o.name).Some?
  {
    hide Trim, DecodeOrRaw;
    var name, prefixed := o.name, HOST_PREFIX + o.name;
    HeaderRoundTrip(jar);
    NoChunksReceived(jar, name);
    NoChunksReceived(jar, prefixed);
    GetReceived(jar, prefixed);
    WritesAccepted(o.(hostPrefix := true, secure := true, path := "/", domain := None), 0, "");
  }

  lemma {:induction false} LeftBehind(jar: Jar, o: CookieOptions)
    requires PlainName(o.name) && !Deletable(o)
    requires jar == [(HOST_PREFIX + o.name, "x")] && Held(jar)
    ensures ReadBack(Cleared(jar, o), o.name).Some?
  {
    hide Cleared, IsChunkOf, ReadBack;
    var name, prefixed := o.name, HOST_PREFIX + o.name;
    var cleared := Cleared(jar, o);
    assert prefixed[..7] == HOST_PREFIX;
    SpellingsApart(name, "");
    forall key ensures !HasChunk(cleared, name, key) && !HasChunk(cleared, prefixed, key) {
      ClearedHolds(jar, o, key);
      OnlyEntry(prefixed, "x", key);
    }
    ClearedHolds(jar, o, prefixed);
    OnlyEntry(prefixed, "x", prefixed);
    PrefixedIsRead(cleared, o);
  }

  lemma {:induction false} OnlyEntry(name: string, value: string, key: string)
    ensures Get([(name, value)], key) == if key == name then Some(value) else None
  {
    assert Get([(name, value)][1..], key).None?;
  }
}
