/**
 * Writing a session cookie again and again without clearing, as renewals do: which of the
 * values written is the one read back, after any history of writes.
 */
module CookieRenewal {
  import opened Wrappers
  import opened PercentEncoding
  import opened CookieSplit
  import opened Cookies
  import opened BrowserJar
  import opened ChunkReading
  import opened CookieTransport
  import opened AgingBrowser

  /** How many numbered chunks a value is written as; none when it travels under the bare name. */
  function ChunkCount(value: string): nat {
    if Fits(value) then 0 else |Split(value)|
  }

  function WrittenAll(jar: Jar, values: seq<string>, o: CookieOptions): Jar
    decreases |values|
  {
    if values == [] then jar else WrittenAll(Written(jar, values[0], o), values[1..], o)
  }

  /** The most chunks any of the values takes. */
  function MostChunks(values: seq<string>): nat {
    if values == [] then 0 else Max(ChunkCount(values[0]), MostChunks(values[1..]))
  }

  function OtherSpelling(o: CookieOptions): string {
    if QualifiesForHostPrefix(o) then o.name else HOST_PREFIX + o.name
  }

  /**
   * What writes leave behind: chunks `0` to `n - 1` under the name written to, none of them
   * empty and together more than one cookie holds, and nothing that competes with them.
   */
  ghost predicate Carries(jar: Jar, o: CookieOptions, n: nat) {
    var e := EffectiveName(o);
    && Held(jar) && Whole(jar, e, n) && NoChunks(jar, OtherSpelling(o))
    && (QualifiesForHostPrefix(o) ==> !Has(jar, o.name))
    && (forall j :: 0 <= j < n ==> Get(Received(jar), ChunkName(e, j)).GetOr("") != "")
    && (n > 0 ==> !Fits(ValuesFrom(Received(jar), e, 0, n)))
  }

  lemma {:induction false} UnshadowedCarriesNone(jar: Jar, o: CookieOptions)
    requires Held(jar) && PlainName(o.name)
    ensures Unshadowed(jar, o) <==> Carries(jar, o, 0)
  {
    hide Fits, IsChunkOf;
    assert Whole(jar, EffectiveName(o), 0) <==> NoChunks(jar, EffectiveName(o)) by {
      forall key ensures key !in Numbered(EffectiveName(o), 0) { }
    }
  }

  lemma {:induction false} WholeReceived(jar: Jar, name: string, n: nat)
    requires Held(jar) && Whole(jar, name, n)
    ensures Whole(Received(jar), name, n) && NoDuplicates(Received(jar))
  {
    ReceivedIsAJar(jar);
    forall key ensures HasChunk(Received(jar), name, key) <==> HasChunk(jar, name, key) {
      GetReceived(jar, key);
      ChunksNotForbidden(key, name);
    }
  }

  /** Chunks that are there are what is read. */
  lemma {:induction false} CarriedIsRead(jar: Jar, o: CookieOptions, n: nat)
    requires Carries(jar, o, n) && 0 < n && PlainName(o.name)
    ensures ReadBack(jar, o.name) == Some(ValuesFrom(Received(jar), EffectiveName(o), 0, n))
  {
    hide Fits, Trim, DecodeOrRaw;
    var e := EffectiveName(o);
    HeaderRoundTrip(jar);
    WholeReceived(jar, e, n);
    WholeReads(Received(jar), e, n);
    assert Numbered(e, n)[0] == ChunkName(e, 0);
    if !QualifiesForHostPrefix(o) {
      NoChunksReceived(jar, HOST_PREFIX + o.name);
    }
  }

  lemma {:induction false} ValuesSplit(jar: Jar, name: string, i: nat, m: nat, n: nat)
    requires i <= m <= n
    ensures ValuesFrom(jar, name, i, n) == ValuesFrom(jar, name, i, m) + ValuesFrom(jar, name, m, n)
    decreases m - i
  {
    if i < m {
      ValuesSplit(jar, name, i + 1, m, n);
    }
  }

  /** Writing chunks over chunks: the first are replaced, the others stay. */
  lemma {:induction false} ChunksOverChunks(jar: Jar, value: string, o: CookieOptions, n: nat)
    requires Carries(jar, o, n) && PlainName(o.name) && Keeps(o) && !Fits(value)
    ensures var kept, m, e := Written(jar, value, o), |Split(value)|, EffectiveName(o);
            && 2 <= m && Held(kept) && Whole(kept, e, Max(n, m))
            && (forall j :: 0 <= j < m ==> Get(Received(kept), ChunkName(e, j)) == Some(Split(value)[j]))
            && (forall j :: m <= j ==> Get(Received(kept), ChunkName(e, j)) == Get(Received(jar), ChunkName(e, j)))
            && (forall key :: !IsChunkOf(key, e) ==> Get(kept, key) == Get(jar, key))
  {
    hide Encode, Decode, Fits, Trim, DecodeOrRaw, IsChunkOf;
    var e, chunks, kept := EffectiveName(o), Split(value), Written(jar, value, o);
    var m := |chunks|;
    OversizeSplits(value);
    ChunksStored(jar, chunks, 0, o);
    forall j | 0 <= j < m ensures Get(Received(kept), ChunkName(e, j)) == Some(chunks[j]) {
      WritesAccepted(o, j, chunks[j]);
      EncodedValueTravels(chunks[j]);
      GetReceived(kept, ChunkName(e, j));
    }
    forall j | m <= j ensures Get(Received(kept), ChunkName(e, j)) == Get(Received(jar), ChunkName(e, j)) {
      forall i | 0 <= i < m ensures ChunkName(e, i) != ChunkName(e, j) {
        if ChunkName(e, i) == ChunkName(e, j) { ChunkNameInjective(e, i, j); }
      }
      GetReceived(kept, ChunkName(e, j));
      GetReceived(jar, ChunkName(e, j));
    }
    forall key | !IsChunkOf(key, e) ensures Get(kept, key) == Get(jar, key) {
      forall j | 0 <= j < m ensures key != ChunkName(e, j) { ChunkNameFacts(e, j); }
    }
    forall key ensures HasChunk(kept, e, key) <==> key in Numbered(e, Max(n, m)) {
      WholeAfterChunks(jar, kept, e, n, m, key);
    }
  }

  lemma {:induction false} WholeAfterChunks(jar: Jar, kept: Jar, e: string, n: nat, m: nat, key: string)
    requires Whole(jar, e, n)
    requires forall j :: 0 <= j < m ==> Has(kept, ChunkName(e, j))
    requires (forall j :: 0 <= j < m ==> key != ChunkName(e, j)) ==> Get(kept, key) == Get(jar, key)
    ensures HasChunk(kept, e, key) <==> key in Numbered(e, Max(n, m))
  {
    hide IsChunkOf;
    var most := Max(n, m);
    assert HasChunk(jar, e, key) <==> key in Numbered(e, n);
    if j :| 0 <= j < m && key == ChunkName(e, j) {
      ChunkNameFacts(e, j);
      assert Numbered(e, most)[j] == key;
    } else if key in Numbered(e, n) {
      var j :| 0 <= j < n && Numbered(e, n)[j] == key;
      assert Numbered(e, most)[j] == key;
    }
  }

  /** Nothing but the cookie written to changes, so what did not compete before does not now. */
  lemma {:induction false} StillUncontested(jar: Jar, kept: Jar, o: CookieOptions)
    requires PlainName(o.name) && NoChunks(jar, OtherSpelling(o))
    requires QualifiesForHostPrefix(o) ==> !Has(jar, o.name)
    requires forall key :: !IsChunkOf(key, EffectiveName(o)) && key != EffectiveName(o) ==>
             Get(kept, key) == Get(jar, key)
    ensures NoChunks(kept, OtherSpelling(o)) && (QualifiesForHostPrefix(o) ==> !Has(kept, o.name))
  {
    hide Fits;
    forall key ensures !HasChunk(kept, OtherSpelling(o), key) {
      SpellingsApart(o.name, key);
      assert !HasChunk(jar, OtherSpelling(o), key);
    }
    SpellingsApart(o.name, "");
  }

  /** One more write: the value is read back exactly when it takes as many chunks as are there. */
  lemma Rewrite(jar: Jar, value: string, o: CookieOptions, n: nat)
    requires Carries(jar, o, n) && PlainName(o.name) && Keeps(o)
    ensures var kept := Written(jar, value, o);
            && Carries(kept, o, Max(n, ChunkCount(value)))
            && (ReadBack(kept, o.name) == Some(value) <==> n <= ChunkCount(value))
  {
    if Fits(value) {
      RewriteBare(jar, value, o, n);
    } else {
      RewriteChunks(jar, value, o, n);
    }
  }

  lemma RewriteBare(jar: Jar, value: string, o: CookieOptions, n: nat)
    requires Carries(jar, o, n) && PlainName(o.name) && Keeps(o) && Fits(value)
    ensures var kept := Written(jar, value, o);
            Carries(kept, o, n) && (ReadBack(kept, o.name) == Some(value) <==> n == 0)
  {
    hide Fits, Trim, DecodeOrRaw, Written, ReadBack, IsChunkOf;
    var kept, e := Written(jar, value, o), EffectiveName(o);
    BareStored(jar, value, o);
    StillUncontested(jar, kept, o);
    SpellingsApart(o.name, "");
    forall key | key != e ensures Get(Received(kept), key) == Get(Received(jar), key) {
      GetReceived(kept, key);
      GetReceived(jar, key);
    }
    forall key ensures HasChunk(kept, e, key) <==> HasChunk(jar, e, key) {
    }
    forall j: nat ensures Get(Received(kept), ChunkName(e, j)) == Get(Received(jar), ChunkName(e, j)) {
      ChunkNameFacts(e, j);
    }
    SameValues(jar, kept, e, 0, n);
    if n == 0 {
      UnshadowedCarriesNone(jar, o);
      WriteThenRead(jar, value, o);
    } else {
      CarriedIsRead(kept, o, n);
    }
  }

  lemma {:induction false} SameValues(a: Jar, b: Jar, name: string, i: nat, n: nat)
    requires i <= n
    requires forall j: nat {:trigger ChunkName(name, j)} :: i <= j ==>
             Get(Received(a), ChunkName(name, j)) == Get(Received(b), ChunkName(name, j))
    ensures ValuesFrom(Received(a), name, i, n) == ValuesFrom(Received(b), name, i, n)
    decreases n - i
  {
    if i < n {
      SameValues(a, b, name, i + 1, n);
    }
  }

  lemma RewriteChunks(jar: Jar, value: string, o: CookieOptions, n: nat)
    requires Carries(jar, o, n) && PlainName(o.name) && Keeps(o) && !Fits(value)
    ensures var kept := Written(jar, value, o);
            && Carries(kept, o, Max(n, |Split(value)|))
            && (ReadBack(kept, o.name) == Some(value) <==> n <= |Split(value)|)
  {
    hide Fits, Trim, DecodeOrRaw, Written, ReadBack, IsChunkOf, Split;
    var kept, e, chunks := Written(jar, value, o), EffectiveName(o), Split(value);
    var m := |chunks|;
    var most := Max(n, m);
    var r := Received(kept);
    ChunksOverChunks(jar, value, o, n);
    StillUncontested(jar, kept, o);
    SplitCorrect(value, []);
    ValuesAreChunks(r, e, chunks, 0);
    assert chunks[0..] == chunks && ValuesFrom(r, e, 0, m) == value;
    ValuesSplit(r, e, 0, m, most);
    var tail := ValuesFrom(r, e, m, most);
    assert (value + tail)[0..|value|] == value;
    if Fits(value + tail) {
      PartFits(value + tail, 0, |value|);
    }
    assert Carries(kept, o, most);
    CarriedIsRead(kept, o, most);
    if m < n {
      assert Get(r, ChunkName(e, m)).GetOr("") != "";
      assert tail != "";
    }
  }

  /** While all of them last, the last value is read back exactly when no earlier one took more chunks. */
  lemma {:induction false} LatestWhileAllLast(jar: Jar, values: seq<string>, o: CookieOptions)
    requires Held(jar) && PlainName(o.name) && Keeps(o) && Unshadowed(jar, o) && values != []
    ensures var last := values[|values| - 1];
            ReadBack(WrittenAll(jar, values, o), o.name) == Some(last) <==> MostChunks(values) == ChunkCount(last)
  {
    UnshadowedCarriesNone(jar, o);
    HistoryFrom(jar, values, o, 0);
  }

  lemma {:induction false} HistoryFrom(jar: Jar, values: seq<string>, o: CookieOptions, n: nat)
    requires Carries(jar, o, n) && PlainName(o.name) && Keeps(o) && values != []
    ensures var last := values[|values| - 1];
            ReadBack(WrittenAll(jar, values, o), o.name) == Some(last) <==>
                Max(n, MostChunks(values)) == ChunkCount(last)
    decreases |values|
  {
    hide Carries, ReadBack, Written, ChunkCount, Keeps, PlainName;
    Rewrite(jar, values[0], o, n);
    if |values| > 1 {
      HistoryFrom(Written(jar, values[0], o), values[1..], o, Max(n, ChunkCount(values[0])));
    } else {
      assert values[1..] == [];
    }
  }

  // ---------------------------------------------------------------------------------------
  // Over time

  datatype Write = Write(value: string, at: int)

  predicate InOrder(from: int, ws: seq<Write>)
    decreases |ws|
  {
    ws == [] || (from <= ws[0].at && InOrder(ws[0].at, ws[1..]))
  }

  /** The browser after the responses of a history, each at its own instant. */
  function ReceiveAll(b: Browser, ws: seq<Write>, o: CookieOptions): Browser
    decreases |ws|
  {
    if ws == [] then b
    else ReceiveAll(Receive(b, SerializeCookieChunks(ws[0].value, o), ws[0].at), ws[1..], o)
  }

  /** The values of the writes that have not outlived their cookies, in order. */
  function LiveValues(ws: seq<Write>, o: CookieOptions, now: int): seq<string> {
    if ws == [] then []
    else (if Lasts(o, ws[0].at, now) then [ws[0].value] else []) + LiveValues(ws[1..], o, now)
  }

  /** The cookies that the other writes wrote. */
  function Outlived(ws: seq<Write>, o: CookieOptions, now: int): set<string> {
    if ws == [] then {}
    else (if Lasts(o, ws[0].at, now) then {} else NamesOf(SerializeCookieChunks(ws[0].value, o)))
         + Outlived(ws[1..], o, now)
  }

  /** Later writes last longer. */
  lemma {:induction false} LaterLastLonger(ws: seq<Write>, o: CookieOptions, from: int, now: int)
    requires InOrder(from, ws)
    ensures Lasts(o, from, now) ==> Outlived(ws, o, now) == {} && |LiveValues(ws, o, now)| == |ws|
    ensures ws != [] && !Lasts(o, ws[|ws| - 1].at, now) ==> LiveValues(ws, o, now) == []
    ensures ws != [] && Lasts(o, ws[|ws| - 1].at, now) ==>
              var live := LiveValues(ws, o, now);
              live != [] && live[|live| - 1] == ws[|ws| - 1].value
    ensures ws != [] ==> from <= ws[|ws| - 1].at
  {
    if ws != [] {
      LaterLastLonger(ws[1..], o, ws[0].at, now);
    }
  }

  lemma {:induction false} WrittenAllSame(a: Jar, b: Jar, values: seq<string>, o: CookieOptions)
    requires Same(a, b)
    ensures Same(WrittenAll(a, values, o), WrittenAll(b, values, o))
    decreases |values|
  {
    if values != [] {
      SameApplied(a, b, SerializeCookieChunks(values[0], o));
      WrittenAllSame(Written(a, values[0], o), Written(b, values[0], o), values[1..], o);
    }
  }

  lemma {:induction false} HistoryHeld(b: Browser, ws: seq<Write>, o: CookieOptions)
    requires Held(b.jar) && PlainName(o.name)
    ensures Held(ReceiveAll(b, ws, o).jar)
    decreases |ws|
  {
    if ws != [] {
      var cs := SerializeCookieChunks(ws[0].value, o);
      WritesUniform(ws[0].value, o);
      HeldDrop(b.jar, DeadAt(b, ws[0].at));
      AppliedHeld(Age(b, ws[0].at).jar, cs, o);
      HistoryHeld(Receive(b, cs, ws[0].at), ws[1..], o);
    }
  }

  lemma {:induction false} WrittenAllHeld(jar: Jar, values: seq<string>, o: CookieOptions)
    requires Held(jar) && PlainName(o.name)
    ensures Held(WrittenAll(jar, values, o))
    decreases |values|
  {
    if values != [] {
      WritesUniform(values[0], o);
      AppliedHeld(jar, SerializeCookieChunks(values[0], o), o);
      WrittenAllHeld(Written(jar, values[0], o), values[1..], o);
    }
  }

  /**
   * What a history leaves at a later instant is what its live writes alone would have left
   * on the cookies that are still alive and that no dead write overwrote.
   */
  lemma {:induction false} HistoryIsItsLiveWrites(b: Browser, ws: seq<Write>, o: CookieOptions, from: int, now: int)
    requires PlainName(o.name) && InOrder(from, ws) && (ws != [] ==> ws[|ws| - 1].at <= now)
    ensures Same(Age(ReceiveAll(b, ws, o), now).jar,
                 WrittenAll(Drop(b.jar, DeadAt(b, now) + Outlived(ws, o, now)), LiveValues(ws, o, now), o))
    decreases |ws|
  {
    if ws == [] {
      assert DeadAt(b, now) + {} == DeadAt(b, now);
    } else {
      var w, rest := ws[0], ws[1..];
      var cs := SerializeCookieChunks(w.value, o);
      var b1 := Receive(b, cs, w.at);
      LaterLastLonger(rest, o, w.at, now);
      HistoryIsItsLiveWrites(b1, rest, o, w.at, now);
      var restBase := Drop(b1.jar, DeadAt(b1, now) + Outlived(rest, o, now));
      var base := Drop(b.jar, DeadAt(b, now) + Outlived(ws, o, now));
      var live := LiveValues(rest, o, now);
      if Lasts(o, w.at, now) {
        FirstLasts(b, ws, o, now);
        assert LiveValues(ws, o, now)[0] == w.value && LiveValues(ws, o, now)[1..] == live;
        hide Receive, DeadAt, Drop, Written, Same, SerializeCookieChunks, Outlived;
        WrittenAllSame(restBase, Written(base, w.value, o), live, o);
      } else {
        FirstIsGone(b, ws, o, now);
        assert LiveValues(ws, o, now) == live;
        hide Receive, DeadAt, Drop, Written, Same, SerializeCookieChunks, Outlived;
        WrittenAllSame(restBase, base, live, o);
      }
    }
  }

  /** A first write that lasts is the first of the live ones, over the same cookies. */
  lemma {:induction false} FirstLasts(b: Browser, ws: seq<Write>, o: CookieOptions, now: int)
    requires PlainName(o.name) && ws != [] && ws[0].at <= now && Lasts(o, ws[0].at, now)
    requires Outlived(ws[1..], o, now) == {}
    ensures var b1 := Receive(b, SerializeCookieChunks(ws[0].value, o), ws[0].at);
            Same(Drop(b1.jar, DeadAt(b1, now) + Outlived(ws[1..], o, now)),
                 Written(Drop(b.jar, DeadAt(b, now) + Outlived(ws, o, now)), ws[0].value, o))
  {
    var b1 := Receive(b, SerializeCookieChunks(ws[0].value, o), ws[0].at);
    WriteSeenLater(b, ws[0].value, o, ws[0].at, now);
    assert DeadAt(b1, now) + {} == DeadAt(b1, now);
    assert DeadAt(b, now) + Outlived(ws, o, now) == DeadAt(b, now);
  }

  /** A first write that is gone only takes away the cookies it wrote. */
  lemma {:induction false} FirstIsGone(b: Browser, ws: seq<Write>, o: CookieOptions, now: int)
    requires PlainName(o.name) && ws != [] && ws[0].at <= now && !Lasts(o, ws[0].at, now)
    ensures var b1 := Receive(b, SerializeCookieChunks(ws[0].value, o), ws[0].at);
            Same(Drop(b1.jar, DeadAt(b1, now) + Outlived(ws[1..], o, now)),
                 Drop(b.jar, DeadAt(b, now) + Outlived(ws, o, now)))
  {
    var cs := SerializeCookieChunks(ws[0].value, o);
    var b1 := Receive(b, cs, ws[0].at);
    WriteSeenLater(b, ws[0].value, o, ws[0].at, now);
    hide SerializeCookieChunks, Receive, DeadAt, Drop;
    var dead1 := DeadAt(b1, now) + Outlived(ws[1..], o, now);
    var dead := DeadAt(b, now) + Outlived(ws, o, now);
    assert Outlived(ws, o, now) == NamesOf(cs) + Outlived(ws[1..], o, now);
    forall k ensures Get(Drop(b1.jar, dead1), k) == Get(Drop(b.jar, dead), k) {
      GetDrop(b1.jar, dead1, k);
      GetDrop(b.jar, dead, k);
    }
  }

  /**
   * After any history of writes, at any later instant, over a browser that held nothing in
   * their way: while the last write lasts, its value is the one read back if and only if no
   * write that still lasts took more chunks; once it has gone, nothing of the history is
   * left, and the cookies it wrote are missing.
   */
  lemma {:induction false} LatestIsReadExactly(b: Browser, ws: seq<Write>, o: CookieOptions, from: int, now: int)
    requires Held(b.jar) && PlainName(o.name) && Unshadowed(b.jar, o)
    requires ws != [] && InOrder(from, ws) && ws[|ws| - 1].at <= now
    ensures var read := ReadBack(Age(ReceiveAll(b, ws, o), now).jar, o.name);
            var last := ws[|ws| - 1];
            && (Lasts(o, last.at, now) ==>
                  (read == Some(last.value) <==> MostChunks(LiveValues(ws, o, now)) == ChunkCount(last.value)))
            && (!Lasts(o, last.at, now) ==>
                  read == ReadBack(Drop(b.jar, DeadAt(b, now) + Outlived(ws, o, now)), o.name))
  {
    hide ReadBack, Unshadowed, ReceiveAll, Outlived, MostChunks, ChunkCount, Same, Held, PlainName, WrittenAll;
    hide LiveValues, InOrder, Drop, DeadAt, Keeps;
    var kept := Age(ReceiveAll(b, ws, o), now).jar;
    var base := Drop(b.jar, DeadAt(b, now) + Outlived(ws, o, now));
    var live := LiveValues(ws, o, now);
    HistoryIsItsLiveWrites(b, ws, o, from, now);
    DropUnshadows(b.jar, DeadAt(b, now) + Outlived(ws, o, now), o);
    HistoryHeld(b, ws, o);
    HeldDrop(ReceiveAll(b, ws, o).jar, DeadAt(ReceiveAll(b, ws, o), now));
    WrittenAllHeld(base, live, o);
    LaterLastLonger(ws, o, from, now);
    SameReadsAlike(kept, WrittenAll(base, live, o), o.name);
    if Lasts(o, ws[|ws| - 1].at, now) {
      LastingKeeps(o, ws[|ws| - 1].at, now);
      LatestWhileAllLast(base, live, o);
    } else {
      NothingWritten(base, o);
    }
  }

  lemma {:induction false} LastingKeeps(o: CookieOptions, at: int, now: int)
    requires Lasts(o, at, now) && at <= now
    ensures Keeps(o)
  {
  }

  lemma {:induction false} NothingWritten(jar: Jar, o: CookieOptions)
    ensures WrittenAll(jar, [], o) == jar
  {
  }
}
