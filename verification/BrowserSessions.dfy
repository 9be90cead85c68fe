/**
 * A browser that comes back to the server: what its next request presents after a response,
 * and how often it has to ask to stay signed in.
 */
module BrowserSessions {
  import opened Wrappers
  import opened Claims
  import opened SessionStore
  import opened SessionEngine
  import opened SessionRuns
  import opened SessionInvariants
  import opened SessionTheorems
  import opened SlidingWindow
  import opened Cookies
  import opened AuthServer
  import BrowserJar
  import CT = CookieTransport
  import BR = AgingBrowser
  import CR = CookieRenewal

  /** The token text the server takes from a browser's request. */
  function Presents(site: Site, b: BR.Browser, now: int): Option<string> {
    ReadCookie(ParseHeader(BR.Sends(b, now)), site.cookie.name)
  }

  function CookieLifeMs(site: Site): int {
    1000 * (site.cfg.absoluteTtlMs / 1000)
  }

  // ---------------------------------------------------------------------------------------
  // Aging in steps

  lemma {:induction false} DropTwice(jar: Jar, names: set<string>, more: set<string>)
    ensures BR.Drop(BR.Drop(jar, names), more) == BR.Drop(jar, names + more)
  {
    if jar != [] {
      DropTwice(jar[1..], names, more);
      if jar[0].0 in names {
        assert BR.Drop(jar, names) == BR.Drop(jar[1..], names);
      } else {
        assert BR.Drop(jar, names)[1..] == BR.Drop(jar[1..], names);
      }
    }
  }

  /** A browser looked at on the way ages no differently. */
  lemma AgeInSteps(b: BR.Browser, now: int, later: int)
    requires now <= later
    ensures BR.Age(BR.Age(b, now), later) == BR.Age(b, later)
  {
    DropTwice(b.jar, BR.DeadAt(b, now), BR.DeadAt(BR.Age(b, now), later));
    assert BR.DeadAt(b, now) + BR.DeadAt(BR.Age(b, now), later) == BR.DeadAt(b, later);
  }

  lemma NothingReceived(b: BR.Browser, now: int, later: int)
    requires now <= later
    ensures BR.Receive(b, [], now) == BR.Age(b, now)
    ensures BR.Sends(BR.Receive(b, [], now), later) == BR.Sends(b, later)
  {
    AgeInSteps(b, now, later);
  }

  // ---------------------------------------------------------------------------------------
  // One request and the next

  /** What a request is answered, in terms of the read of the token it presents. */
  lemma {:induction false} AnswersByRead(site: Site, backend: Backend, header: Option<string>, now: int, faults: Faults)
    ensures var (a, backend') := FromRequest(site, backend, header, now, faults);
            var token := Present(site.codec, ReadCookie(ParseHeader(header), site.cookie.name));
            var read := ReadSession(site.cfg, backend, token, now, faults);
            && backend' == read.1
            && (read.0.ReadFailed? ==> a.session == None && a.error == Some(read.0.error) && a.setCookies == [])
            && (read.0.ReadOk? ==>
                  && a.session == Some(read.0.session) && a.error == None
                  && (read.0.renewed.None? ==> a.setCookies == [])
                  && (read.0.renewed.Some? ==>
                        a.setCookies == SerializeCookieChunks(site.codec.sign(read.0.renewed.value), site.cookie)))
  {
    hide ReadSession, ReadCookie, ParseHeader, SerializeCookieChunks, Present;
  }

  /** What a request that presents `p` is answered, in terms of the read of `p`. */
  lemma {:induction false} RequestAnswers(site: Site, backend: Backend, header: Option<string>, p: Payload, now: int,
                                          faults: Faults)
    requires Ideal(site.codec) && ReadCookie(ParseHeader(header), site.cookie.name) == Some(site.codec.sign(p))
    ensures var (a, backend') := FromRequest(site, backend, header, now, faults);
            var read := ReadSession(site.cfg, backend, Signed(p), now, faults);
            && backend' == read.1 && (a.session.Some? <==> read.0.ReadOk?)
            && (read.0.ReadFailed? ==> a == Answer(None, Some(read.0.error), []))
            && (read.0.ReadOk? ==>
                  && a.session == Some(read.0.session) && a.error == None
                  && a.setCookies == if read.0.renewed.None? then []
                                     else SerializeCookieChunks(site.codec.sign(read.0.renewed.value), site.cookie))
  {
    SignedIsPresented(site, p);
    AnswersByRead(site, backend, header, now, faults);
    hide FromRequest, ReadSession, ReadCookie, ParseHeader, SerializeCookieChunks, Ideal, Present;
  }

  /**
   * After a response, the browser's next request presents the renewed token if the read gave
   * one and the cookie still lasts; otherwise it sends exactly what it would have sent.
   */
  lemma {:induction false} NextRequest(site: Site, backend: Backend, b: BR.Browser, p: Payload, now: int,
                                       faults: Faults, later: int)
    requires Wired(site) && BrowserJar.Held(b.jar) && CT.Unshadowed(BR.Age(b, now).jar, site.cookie) && now <= later
    requires Presents(site, b, now) == Some(site.codec.sign(p))
    ensures var a := FromRequest(site, backend, BR.Sends(b, now), now, faults).0;
            var read := ReadSession(site.cfg, backend, Signed(p), now, faults).0;
            var b' := BR.Receive(b, a.setCookies, now);
            && a.session == (if read.ReadOk? then Some(read.session) else None)
            && (read.ReadOk? && read.renewed.Some? && later < now + CookieLifeMs(site) ==>
                  Presents(site, b', later) == Some(site.codec.sign(read.renewed.value)))
            && (read.ReadFailed? || read.renewed.None? ==> BR.Sends(b', later) == BR.Sends(b, later))
  {
    hide ReadSession, FromRequest, ReadCookie, ParseHeader, SerializeCookieChunks, CT.Unshadowed, BrowserJar.Held;
    hide BR.Sends, BR.Receive, BR.Age, Ideal;
    RequestAnswers(site, backend, BR.Sends(b, now), p, now, faults);
    NothingReceived(b, now, later);
    var read := ReadSession(site.cfg, backend, Signed(p), now, faults).0;
    if read.ReadOk? && read.renewed.Some? {
      WriteReadLater(b, site.codec.sign(read.renewed.value), site.cookie, now, later);
    }
  }

  /**
   * Renewal keeps the session: a token that names a session rotated away is always replaced,
   * a stateless one also when its renewal is due, and the replacement names the session that
   * was returned and reads as it, unless that one has been rotated away itself.
   */
  lemma {:induction false} RenewedReadsAlike(cfg: Config, w: World, p: Payload, faults: Faults)
    requires Reachable(cfg, w) && p in w.tokens
    ensures var (w', r) := Step1(cfg, w, DoRead(Signed(p), faults));
            r.ReadDone? && (r.read.ReadOk? ==>
              var s, renewed := r.read.session, r.read.renewed;
              && RecordOf(w.backend, p).Some?
              && (renewed.Some? <==>
                    || p.sid != Some(s.id)
                    || (cfg.strategy.Stateless?
                        && w.now - RecordOf(w.backend, p).value.lastSeenAt >= cfg.renewAfterMs))
              && (renewed.Some? ==>
                    var again := ReadSession(cfg, w'.backend, Signed(renewed.value), w'.now, {}).0;
                    && renewed.value in w'.tokens && renewed.value.sid == Some(s.id)
                    && (s.id !in w.marks ==> again.ReadOk? && again.session == s)))
  {
    ReachableInv(cfg, w);
    var r := Step1(cfg, w, DoRead(Signed(p), faults)).1;
    if r.read.ReadOk? {
      LocateLands(cfg, w, Signed(p), faults);
      var landed := Locate(cfg, w.backend, Signed(p), w.now, faults).stored;
      assert BirthOk(cfg, w, landed.id);
      if w.backend != NoStore {
        assert LinkOk(w, landed);
        ReadAfterWrite(w.backend, landed.(lastSeenAt := w.now), w.now);
      }
    }
  }

  // ---------------------------------------------------------------------------------------
  // Asking again and again

  /** Each request, sent with the cookies the browser has by then, is answered with a session. */
  ghost predicate AllRecognised(site: Site, backend: Backend, b: BR.Browser, now: int, gaps: seq<nat>)
    decreases |gaps|
  {
    gaps == [] ||
    (var t := now + gaps[0];
     var (a, backend') := FromRequest(site, Expire(backend, t), BR.Sends(b, t), t, {});
     a.session.Some? && AllRecognised(site, backend', BR.Receive(b, a.setCookies, t), t, gaps[1..]))
  }

  /** Signed text never takes fewer chunks as the instant of last use in it grows. */
  ghost predicate NeverShrinks(site: Site) {
    forall p: Payload, early, late :: 0 <= early <= late ==>
      CR.ChunkCount(site.codec.sign(p.(lsa := Some(early)))) <= CR.ChunkCount(site.codec.sign(p.(lsa := Some(late))))
  }

  /** The browser `b` is, from `now` on, what the writes `ws` have made of `b0`. */
  ghost predicate Tracks(b: BR.Browser, b0: BR.Browser, ws: seq<CR.Write>, o: CookieOptions, now: int) {
    forall later :: now <= later ==> BR.Age(b, later) == BR.Age(CR.ReceiveAll(b0, ws, o), later)
  }

  lemma {:induction false} ReceiveAllAppend(b: BR.Browser, ws: seq<CR.Write>, w: CR.Write, o: CookieOptions)
    ensures CR.ReceiveAll(b, ws + [w], o) ==
            BR.Receive(CR.ReceiveAll(b, ws, o), SerializeCookieChunks(w.value, o), w.at)
    decreases |ws|
  {
    hide BR.Receive, SerializeCookieChunks;
    if ws == [] {
      assert ([] + [w])[1..] == [];
    } else {
      assert (ws + [w])[1..] == ws[1..] + [w];
      ReceiveAllAppend(BR.Receive(b, SerializeCookieChunks(ws[0].value, o), ws[0].at), ws[1..], w, o);
    }
  }

  lemma {:induction false} InOrderAppend(from: int, ws: seq<CR.Write>, w: CR.Write)
    requires CR.InOrder(from, ws) && (if ws == [] then from else ws[|ws| - 1].at) <= w.at
    ensures CR.InOrder(from, ws + [w])
    decreases |ws|
  {
    if ws == [] {
      assert ([] + [w])[1..] == [];
    } else {
      assert (ws + [w])[1..] == ws[1..] + [w];
      InOrderAppend(ws[0].at, ws[1..], w);
    }
  }

  /**
   * The next request after a renewal, whatever was written to the browser before: while the
   * cookie lasts it presents the renewed token if and only if no earlier write that still
   * lasts took more chunks.
   */
  lemma {:induction false} NextRequestExactly(site: Site, backend: Backend, b0: BR.Browser, ws: seq<CR.Write>,
                                              from: int, p: Payload, now: int, faults: Faults, later: int)
    requires Wired(site) && BrowserJar.Held(b0.jar) && CT.Unshadowed(b0.jar, site.cookie)
    requires CR.InOrder(from, ws) && (if ws == [] then from else ws[|ws| - 1].at) <= now <= later
    requires later < now + CookieLifeMs(site)
    requires var b := CR.ReceiveAll(b0, ws, site.cookie);
             Presents(site, b, now) == Some(site.codec.sign(p))
    ensures var b := CR.ReceiveAll(b0, ws, site.cookie);
            var a := FromRequest(site, backend, BR.Sends(b, now), now, faults).0;
            var read := ReadSession(site.cfg, backend, Signed(p), now, faults).0;
            read.ReadOk? && read.renewed.Some? ==>
              var value := site.codec.sign(read.renewed.value);
              (Presents(site, BR.Receive(b, a.setCookies, now), later) == Some(value) <==>
                 CR.MostChunks(CR.LiveValues(ws + [CR.Write(value, now)], site.cookie, later))
                 == CR.ChunkCount(value))
  {
    hide ReadSession, FromRequest, ReadCookie, ParseHeader, SerializeCookieChunks, CT.Unshadowed, BrowserJar.Held;
    hide CR.ReceiveAll, CR.LiveValues, CR.MostChunks, CR.ChunkCount, BR.Age, BR.Receive, Ideal, CT.PlainName;
    var b := CR.ReceiveAll(b0, ws, site.cookie);
    RequestAnswers(site, backend, BR.Sends(b, now), p, now, faults);
    var read := ReadSession(site.cfg, backend, Signed(p), now, faults).0;
    if read.ReadOk? && read.renewed.Some? {
      var w := CR.Write(site.codec.sign(read.renewed.value), now);
      ReceiveAllAppend(b0, ws, w, site.cookie);
      InOrderAppend(from, ws, w);
      CR.LatestIsReadExactly(b0, ws + [w], site.cookie, from, later);
    }
  }

  /** No write takes more than `most` chunks. */
  ghost predicate AtMost(ws: seq<CR.Write>, most: nat) {
    forall i :: 0 <= i < |ws| ==> CR.ChunkCount(ws[i].value) <= most
  }

  lemma {:induction false} MostAtMost(ws: seq<CR.Write>, o: CookieOptions, now: int, most: nat)
    requires AtMost(ws, most)
    ensures CR.MostChunks(CR.LiveValues(ws, o, now)) <= most
  {
    hide CR.ChunkCount;
    if ws != [] {
      MostAtMost(ws[1..], o, now, most);
      var live := CR.LiveValues(ws, o, now);
      if BR.Lasts(o, ws[0].at, now) {
        assert live[0] == ws[0].value && live[1..] == CR.LiveValues(ws[1..], o, now);
      } else {
        assert live == CR.LiveValues(ws[1..], o, now);
      }
    }
  }

  lemma {:induction false} MostAtLeast(values: seq<string>, i: nat)
    requires i < |values|
    ensures CR.ChunkCount(values[i]) <= CR.MostChunks(values)
  {
    hide CR.ChunkCount;
    if i > 0 {
      MostAtLeast(values[1..], i - 1);
    }
  }

  /** The browser carries `p`: the last write signed it, and no write took more chunks. */
  ghost predicate Carried(site: Site, b: BR.Browser, b0: BR.Browser, ws: seq<CR.Write>, from: int, now: int,
                          p: Payload)
  {
    && BrowserJar.Held(b0.jar) && CT.Unshadowed(b0.jar, site.cookie)
    && Tracks(b, b0, ws, site.cookie, now)
    && ws != [] && CR.InOrder(from, ws) && ws[|ws| - 1].at <= now
    && ws[|ws| - 1].value == site.codec.sign(p)
    && AtMost(ws, CR.ChunkCount(site.codec.sign(p)))
  }

  lemma {:induction false} CarriedIsPresented(site: Site, b: BR.Browser, b0: BR.Browser, ws: seq<CR.Write>, from: int,
                                              now: int, p: Payload, later: int)
    requires Wired(site) && Carried(site, b, b0, ws, from, now, p)
    requires now <= later < from + CookieLifeMs(site)
    ensures Presents(site, b, later) == Some(site.codec.sign(p))
  {
    hide CR.ReceiveAll, BR.Age, ReadCookie, ParseHeader, CR.ChunkCount, CT.Unshadowed, BrowserJar.Held, CT.PlainName;
    var last := |ws| - 1;
    CR.LatestIsReadExactly(b0, ws, site.cookie, from, later);
    CR.LaterLastLonger(ws, site.cookie, from, later);
    MostAtMost(ws, site.cookie, later, CR.ChunkCount(site.codec.sign(p)));
    var live := CR.LiveValues(ws, site.cookie, later);
    assert BR.Lasts(site.cookie, ws[last].at, later);
    MostAtLeast(live, |live| - 1);
  }

  /** A response without a cookie, and one with a token that takes no fewer chunks, are carried on. */
  lemma {:induction false} CarriedOn(site: Site, b: BR.Browser, b0: BR.Browser, ws: seq<CR.Write>, from: int,
                                     now: int, p: Payload, later: int)
    requires Carried(site, b, b0, ws, from, now, p) && now <= later
    ensures Carried(site, BR.Receive(b, [], later), b0, ws, from, later, p)
  {
    hide CR.ReceiveAll, BR.Age, CR.ChunkCount, CT.Unshadowed, BrowserJar.Held;
    NothingReceived(b, later, later);
    forall t | later <= t
      ensures BR.Age(BR.Receive(b, [], later), t) == BR.Age(CR.ReceiveAll(b0, ws, site.cookie), t)
    {
      AgeInSteps(b, later, t);
    }
  }

  lemma {:induction false} CarriedAnew(site: Site, b: BR.Browser, b0: BR.Browser, ws: seq<CR.Write>, from: int,
                                       now: int, p: Payload, later: int, q: Payload)
    requires Carried(site, b, b0, ws, from, now, p) && now <= later
    requires CR.ChunkCount(site.codec.sign(p)) <= CR.ChunkCount(site.codec.sign(q))
    ensures Carried(site, BR.Receive(b, SerializeCookieChunks(site.codec.sign(q), site.cookie), later), b0,
                    ws + [CR.Write(site.codec.sign(q), later)], from, later, q)
  {
    hide CR.ChunkCount, CT.Unshadowed, BrowserJar.Held, SerializeCookieChunks, BR.Age, CR.ReceiveAll;
    var w := CR.Write(site.codec.sign(q), later);
    ReceiveAllAppend(b0, ws, w, site.cookie);
    InOrderAppend(from, ws, w);
    assert BR.Age(b, later) == BR.Age(CR.ReceiveAll(b0, ws, site.cookie), later);
  }

  /** The token a browser carries is in use, and was written no earlier than time began. */
  ghost predicate Current(cfg: Config, w: World, p: Payload, lag: nat) {
    InUse(cfg, w, p, lag) && 0 <= w.born[p.sid.value].at
  }

  /** A token in use is renewed by a later instant of last use and nothing else. */
  lemma {:induction false} RenewalMovesLastUse(cfg: Config, t: World, p: Payload)
    requires Inv(cfg, t) && p in t.tokens && p.sid.Some? && p.sid.value in t.born && p.sid.value !in t.marks
    ensures var read := ReadSession(cfg, t.backend, Signed(p), t.now, {}).0;
            read.ReadOk? && read.renewed.Some? ==>
              && p.lsa.Some? && t.born[p.sid.value].at <= p.lsa.value <= t.now
              && read.renewed.value == p.(lsa := Some(t.now))
  {
    assert TokenOk(cfg, t, p);
    if ReadSession(cfg, t.backend, Signed(p), t.now, {}).0.ReadOk? {
      LocateLands(cfg, t, Signed(p), {});
    }
  }

  /** The token a browser goes on with takes no fewer chunks. */
  lemma {:induction false} LatestIsNoShorter(site: Site, w: World, p: Payload, lag: nat, gap: nat)
    requires Current(site.cfg, w, p, lag) && w.now + gap < ExpiryOf(site.cfg, w, p.sid.value)
    requires NeverShrinks(site)
    ensures var (w', r) := ReadAfter(site.cfg, w, p, gap);
            r.ReadDone? && (r.read.ReadOk? ==>
              && Current(site.cfg, w', Latest(p, r), if lag + gap >= site.cfg.renewAfterMs then 0 else lag + gap)
              && CR.ChunkCount(site.codec.sign(p)) <= CR.ChunkCount(site.codec.sign(Latest(p, r))))
  {
    var t := Step1(site.cfg, w, Tick(gap)).0;
    ReadMovesLag(site.cfg, w, p, lag, gap);
    StepKeepsInv(site.cfg, w, Tick(gap));
    RenewalMovesLastUse(site.cfg, t, p);
    StepGrows(site.cfg, w, Tick(gap));
    StepGrows(site.cfg, t, DoRead(Signed(p), {}));
    hide CR.ChunkCount, ReadSession, Inv, Expire;
    if p.lsa.Some? {
      assert p == p.(lsa := Some(p.lsa.value));
    }
  }

  /** For a browser that carries the token in use, requests are recognised exactly when its reads succeed. */
  lemma {:induction false} RequestsAreReads(site: Site, w: World, b: BR.Browser, b0: BR.Browser, ws: seq<CR.Write>,
                                            from: int, p: Payload, lag: nat, gaps: seq<nat>)
    requires Wired(site) && NeverShrinks(site)
    requires Current(site.cfg, w, p, lag) && Carried(site, b, b0, ws, from, w.now, p)
    requires w.now + Total(gaps) < from + CookieLifeMs(site) <= ExpiryOf(site.cfg, w, p.sid.value)
    ensures AllRecognised(site, w.backend, b, w.now, gaps) <==> AllSucceed(site.cfg, w, p, gaps)
    decreases |gaps|
  {
    hide Inv, ExpiryOf, Carried, NeverShrinks, FromRequest, ReadSession, SerializeCookieChunks, CR.ChunkCount, BR.Age;
    hide BR.Sends, BR.Receive, CT.PlainName, Ideal, ReadCookie, ParseHeader;
    if gaps != [] {
      var t := w.now + gaps[0];
      var (w', r) := ReadAfter(site.cfg, w, p, gaps[0]);
      var (a, backend') := FromRequest(site, Expire(w.backend, t), BR.Sends(b, t), t, {});
      CarriedIsPresented(site, b, b0, ws, from, w.now, p, t);
      RequestAnswers(site, Expire(w.backend, t), BR.Sends(b, t), p, t, {});
      ReadMovesLag(site.cfg, w, p, lag, gaps[0]);
      LatestIsNoShorter(site, w, p, lag, gaps[0]);
      if r.read.ReadOk? {
        var q, b', lag' := Latest(p, r), BR.Receive(b, a.setCookies, t),
                           if lag + gaps[0] >= site.cfg.renewAfterMs then 0 else lag + gaps[0];
        if r.read.renewed.Some? {
          CarriedAnew(site, b, b0, ws, from, w.now, p, t, q);
          RequestsAreReads(site, w', b', b0, ws + [CR.Write(site.codec.sign(q), t)], from, q, lag', gaps[1..]);
        } else {
          CarriedOn(site, b, b0, ws, from, w.now, p, t);
          RequestsAreReads(site, w', b', b0, ws, from, q, lag', gaps[1..]);
        }
      }
    }
  }

  /** A session just stored is in use. */
  lemma {:induction false} FreshlyIssued(cfg: Config, w: World, subject: Subject, claims: ClaimMap, newId: Id)
    requires Inv(cfg, w) && 0 <= w.now && newId !in w.born && newId != "" && Decode(cfg.shape, claims).Some?
    ensures var (w1, r) := Step1(cfg, w, DoIssue(subject, claims, newId, {}));
            && w1.now == w.now && r.IssueDone? && r.issue.Issued?
            && var p := r.issue.token;
               && p.sid == Some(newId) && newId in w1.born
               && ExpiryOf(cfg, w1, newId) == w.now + cfg.absoluteTtlMs
               && Current(cfg, w1, p, 0)
  {
    StepKeepsInv(cfg, w, DoIssue(subject, claims, newId, {}));
    UnbornUnlisted(cfg, w, newId);
    hide Inv;
    if w.backend != NoStore {
      ReadAfterWrite(w.backend, Stored(newId, subject, Decode(cfg.shape, claims).value, w.now, w.now,
                                       w.now + cfg.absoluteTtlMs, None, None), w.now);
    }
  }

  /** Right after signing in, the token is in use and the browser carries it. */
  lemma {:induction false} SignedIn(site: Site, w: World, b: BR.Browser, subject: Subject, claims: ClaimMap, newId: Id)
    requires Wired(site) && Inv(site.cfg, w) && 0 <= w.now && newId !in w.born && newId != ""
    requires Decode(site.cfg.shape, claims).Some?
    requires BrowserJar.Held(b.jar) && CT.Unshadowed(BR.Age(b, w.now).jar, site.cookie)
    ensures var (a, backend) := SignIn(site, w.backend, subject, claims, newId, w.now, {});
            var (w1, r) := Step1(site.cfg, w, DoIssue(subject, claims, newId, {}));
            && w1.backend == backend && w1.now == w.now && r.IssueDone? && r.issue.Issued?
            && var p := r.issue.token;
               && p.sid == Some(newId) && newId in w1.born
               && ExpiryOf(site.cfg, w1, newId) == w.now + site.cfg.absoluteTtlMs
               && Current(site.cfg, w1, p, 0)
               && Carried(site, BR.Receive(b, a.setCookies, w.now), BR.Age(b, w.now),
                          [CR.Write(site.codec.sign(p), w.now)], w.now, w.now, p)
  {
    FreshlyIssued(site.cfg, w, subject, claims, newId);
    FreshlyCarried(site, b, Step1(site.cfg, w, DoIssue(subject, claims, newId, {})).1.issue.token, w.now);
    hide Inv, Current, Carried, SerializeCookieChunks, Issue;
  }

  lemma ReceivedAged(b: BR.Browser, cs: seq<SetCookie>, now: int)
    ensures BR.Receive(BR.Age(b, now), cs, now) == BR.Receive(b, cs, now)
  {
    BR.AgeTwice(b, now);
  }

  lemma {:induction false} OneInOrder(w: CR.Write)
    ensures CR.InOrder(w.at, [w])
  {
    assert [w][1..] == [];
  }

  lemma {:induction false} TracksItself(b: BR.Browser, b0: BR.Browser, ws: seq<CR.Write>, o: CookieOptions, now: int)
    requires b == CR.ReceiveAll(b0, ws, o)
    ensures Tracks(b, b0, ws, o, now)
  {
  }

  lemma {:induction false} FreshlyCarried(site: Site, b: BR.Browser, p: Payload, now: int)
    requires BrowserJar.Held(b.jar) && CT.Unshadowed(BR.Age(b, now).jar, site.cookie)
    ensures Carried(site, BR.Receive(b, SerializeCookieChunks(site.codec.sign(p), site.cookie), now), BR.Age(b, now),
                    [CR.Write(site.codec.sign(p), now)], now, now, p)
  {
    hide CR.ChunkCount, CT.Unshadowed, SerializeCookieChunks, BR.Receive, CR.ReceiveAll, Tracks, CR.InOrder;
    var ws := [CR.Write(site.codec.sign(p), now)];
    var b1 := BR.Receive(b, SerializeCookieChunks(site.codec.sign(p), site.cookie), now);
    BR.HeldDrop(b.jar, BR.DeadAt(b, now));
    OneWrite(BR.Age(b, now), site.codec.sign(p), site.cookie, now, now);
    ReceivedAged(b, SerializeCookieChunks(site.codec.sign(p), site.cookie), now);
    OneInOrder(ws[0]);
    TracksItself(b1, BR.Age(b, now), ws, site.cookie, now);
  }

  /**
   * Staying signed in, end to end. After a sign-in, a browser whose requests are at most
   * `most` milliseconds apart is recognised every time, for as long as the first cookie
   * would last, if and only if `most` leaves room in the idle window for the renewal lag.
   */
  lemma {:induction false} StaysSignedInExactly(site: Site, w: World, b: BR.Browser, subject: Subject,
                                                claims: ClaimMap, newId: Id, most: nat)
    requires Wired(site) && NeverShrinks(site)
    requires Reachable(site.cfg, w) && 0 <= w.now && newId !in w.born && newId != ""
    requires Decode(site.cfg.shape, claims).Some?
    requires BrowserJar.Held(b.jar) && CT.Unshadowed(BR.Age(b, w.now).jar, site.cookie)
    requires 1 <= most && site.cfg.idleTtlMs + 1 < CookieLifeMs(site)
    ensures var (a, backend) := SignIn(site, w.backend, subject, claims, newId, w.now, {});
            (forall gaps :: Within(gaps, most) && Total(gaps) < CookieLifeMs(site) ==>
               AllRecognised(site, backend, BR.Receive(b, a.setCookies, w.now), w.now, gaps))
            <==> most + Slack(site.cfg) <= site.cfg.idleTtlMs
  {
    hide Inv, Carried, Current, NeverShrinks, AllRecognised, AllSucceed, BR.Receive, BR.Age, Reachable;
    hide BrowserJar.Held, CT.Unshadowed, CT.PlainName, Ideal;
    ReachableInv(site.cfg, w);
    SignedIn(site, w, b, subject, claims, newId);
    var (a, backend) := SignIn(site, w.backend, subject, claims, newId, w.now, {});
    var (w1, r) := Step1(site.cfg, w, DoIssue(subject, claims, newId, {}));
    var p, b1 := r.issue.token, BR.Receive(b, a.setCookies, w.now);
    CurrentInUse(site.cfg, w1, p);
    forall gaps | Total(gaps) < CookieLifeMs(site)
      ensures AllRecognised(site, backend, b1, w.now, gaps) <==> AllSucceed(site.cfg, w1, p, gaps)
    {
      RequestsAreReads(site, w1, b1, BR.Age(b, w.now), [CR.Write(site.codec.sign(p), w.now)], w.now, p, 0, gaps);
    }
    if most + Slack(site.cfg) <= site.cfg.idleTtlMs {
      forall gaps | Within(gaps, most) && Total(gaps) < CookieLifeMs(site)
        ensures AllRecognised(site, backend, b1, w.now, gaps)
      {
        RegularReadsKeepAlive(site.cfg, w1, p, 0, gaps, most);
      }
    } else {
      var n := Min(Slack(site.cfg), site.cfg.idleTtlMs);
      var last := site.cfg.idleTtlMs - n + 1;
      CreepingTotal(n, last, most);
      CreepingFails(site.cfg, w1, p, 0, n, last);
    }
  }

  lemma CurrentInUse(cfg: Config, w: World, p: Payload)
    requires Current(cfg, w, p, 0)
    ensures InUse(cfg, w, p, 0)
  {
  }
}
