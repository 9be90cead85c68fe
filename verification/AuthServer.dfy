/**
 * The server a site talks to: the session engine behind a signed, chunked cookie. Requests
 * carry the cookies a browser holds, responses the ones it is asked to store.
 */
module AuthServer {
  import opened Wrappers
  import opened Claims
  import opened SessionStore
  import opened SessionEngine
  import opened SessionRuns
  import opened SessionInvariants
  import opened SessionTheorems
  import opened SessionFamilies
  import opened Cookies
  import BrowserJar
  import ChunkReading
  import CT = CookieTransport
  import BR = AgingBrowser
  import CR = CookieRenewal

  /** Signing and verifying of payloads. */
  datatype Codec = Codec(sign: Payload -> string, verify: string -> Option<Payload>)

  /** What was signed verifies, and nothing else does. */
  ghost predicate Ideal(c: Codec) {
    && (forall p :: c.verify(c.sign(p)) == Some(p) && c.sign(p) != "")
    && (forall t, p :: c.verify(t) == Some(p) ==> t == c.sign(p))
  }

  datatype Site = Site(cfg: Config, codec: Codec, cookie: CookieOptions)

  /** The cookie lives as long as a session may, in whole seconds. */
  ghost predicate Wired(site: Site) {
    && ValidConfig(site.cfg) && Ideal(site.codec) && CT.PlainName(site.cookie.name)
    && site.cookie.maxAgeSeconds == Some(site.cfg.absoluteTtlMs / 1000)
  }

  function Present(codec: Codec, token: Option<string>): Presented {
    if token.None? || token.value == "" then Absent
    else
      match codec.verify(token.value)
      case None => Unverifiable
      case Some(p) => Signed(p)
  }

  datatype Answer = Answer(session: Option<Session>, error: Option<AuthError>, setCookies: seq<SetCookie>)

  function FromRequest(site: Site, b: Backend, header: Option<string>, now: int, faults: Faults): (Answer, Backend) {
    var token := ReadCookie(ParseHeader(header), site.cookie.name);
    match ReadSession(site.cfg, b, Present(site.codec, token), now, faults)
    case (ReadFailed(e), b1) => (Answer(None, Some(e), []), b1)
    case (ReadOk(session, renewed), b1) =>
      (Answer(Some(session), None,
              if renewed.None? then [] else SerializeCookieChunks(site.codec.sign(renewed.value), site.cookie)), b1)
  }

  function SignIn(site: Site, b: Backend, subject: Subject, claims: ClaimMap, newId: Id, now: int, faults: Faults)
    : (Answer, Backend)
  {
    match Issue(site.cfg, b, subject, claims, newId, now, faults)
    case (IssueFailed(e), b1) => (Answer(None, Some(e), []), b1)
    case (Issued(token, session), b1) =>
      (Answer(Some(session), None, SerializeCookieChunks(site.codec.sign(token), site.cookie)), b1)
  }

  function SignOut(site: Site, b: Backend, header: Option<string>, now: int, faults: Faults)
    : (seq<SetCookie>, Backend)
  {
    var jar := ParseHeader(header);
    var token := ReadCookie(jar, site.cookie.name);
    (ClearCookieChunks(jar, site.cookie),
     if token.None? then b else DestroySession(b, Present(site.codec, token), now, faults).1)
  }

  class AuthServerImpl {
    const site: Site
    const engine: Engine

    ghost predicate Valid() {
      engine.cfg == site.cfg && engine.Valid()
    }

    /** Sets up the store, if there is storage, to live as long as a session may. */
    constructor (cfg: Config, codec: Codec, cookie: CookieOptions, storage: bool)
      requires ValidConfig(cfg) && (cfg.strategy.Stateful? ==> storage)
      ensures Valid() && site.cfg == cfg && site.codec == codec
      ensures site.cookie == cookie.(maxAgeSeconds := Some(cfg.absoluteTtlMs / 1000))
      ensures forall t :: engine.View(t) == if storage then Indexed(map[], map[], cfg.absoluteTtlMs) else NoStore
    {
      var store: StorageSessionStore? := null;
      if storage {
        store := new StorageSessionStore(cfg.absoluteTtlMs);
      }
      engine := new Engine(cfg, store);
      site := Site(cfg, codec, cookie.(maxAgeSeconds := Some(cfg.absoluteTtlMs / 1000)));
    }

    method HandleRequest(header: Option<string>, now: int, faults: Faults) returns (r: Answer)
      requires Valid()
      modifies engine.Footprint()
      ensures (r, engine.View(now)) == FromRequest(site, old(engine.View(now)), header, now, faults)
    {
      var jar := ParseCookieHeader(header);
      var token := ReadChunkedCookie(jar, site.cookie.name);
      var read := engine.ReadToken(Present(site.codec, token), now, faults);
      if read.ReadFailed? {
        return Answer(None, Some(read.error), []);
      }
      var setCookies := if read.renewed.None? then []
                        else SerializeCookieChunks(site.codec.sign(read.renewed.value), site.cookie);
      return Answer(Some(read.session), None, setCookies);
    }

    method StartSession(subject: Subject, claims: ClaimMap, newId: Id, now: int, faults: Faults) returns (r: Answer)
      requires Valid()
      modifies engine.Footprint()
      ensures (r, engine.View(now)) == SignIn(site, old(engine.View(now)), subject, claims, newId, now, faults)
    {
      var issued := engine.IssueSession(subject, claims, newId, now, faults);
      if issued.IssueFailed? {
        return Answer(None, Some(issued.error), []);
      }
      return Answer(Some(issued.session), None, SerializeCookieChunks(site.codec.sign(issued.token), site.cookie));
    }

    method EndSession(header: Option<string>, now: int, faults: Faults) returns (setCookies: seq<SetCookie>)
      requires Valid()
      modifies engine.Footprint()
      ensures (setCookies, engine.View(now)) == SignOut(site, old(engine.View(now)), header, now, faults)
    {
      var jar := ParseCookieHeader(header);
      var token := ReadChunkedCookie(jar, site.cookie.name);
      if token.Some? {
        var _ := engine.DestroyToken(Present(site.codec, token), now, faults);
      }
      return ClearCookieChunks(jar, site.cookie);
    }
  }

  // ---------------------------------------------------------------------------------------
  // A browser and the server, on one clock

  lemma SignedIsPresented(site: Site, p: Payload)
    requires Ideal(site.codec)
    ensures Present(site.codec, Some(site.codec.sign(p))) == Signed(p)
  {
  }

  lemma {:induction false} FreshTokenReads(cfg: Config, w: World, subject: Subject, claims: ClaimMap, newId: Id,
                                           ms: nat)
    requires Inv(cfg, w) && newId !in w.born && newId != "" && Decode(cfg.shape, claims).Some?
    ensures var (r, b) := Issue(cfg, w.backend, subject, claims, newId, w.now, {});
            && r.Issued?
            && r.session == Session(newId, subject, Decode(cfg.shape, claims).value, w.now, w.now,
                                    w.now + cfg.absoluteTtlMs)
            && var read := ReadSession(cfg, Expire(b, w.now + ms), Signed(r.token), w.now + ms, {}).0;
               var kept := Session(newId, subject, Decode(cfg.shape, claims).value, w.now, w.now + ms,
                                   w.now + cfg.absoluteTtlMs);
               if ms <= cfg.idleTtlMs && ms < cfg.absoluteTtlMs then read.ReadOk? && read.session == kept
               else read == ReadFailed(SessionExpired)
  {
    var s := Stored(newId, subject, Decode(cfg.shape, claims).value, w.now, w.now, w.now + cfg.absoluteTtlMs, None,
                    None);
    DecodeIdempotent(cfg.shape, claims);
    var b := Issue(cfg, w.backend, subject, claims, newId, w.now, {}).1;
    if w.backend != NoStore {
      ReadAfterWrite(w.backend, s, w.now);
      assert b == Write(w.backend, s, w.now);
      assert ms < cfg.absoluteTtlMs ==> Read(Expire(b, w.now + ms), newId) == Some(s);
    }
  }

  /** What the browser's token reads as, some time after one write over cookies that do not shadow it. */
  lemma WriteReadLater(b: BR.Browser, value: string, o: CookieOptions, at: int, now: int)
    requires BrowserJar.Held(b.jar) && CT.PlainName(o.name) && CT.Unshadowed(BR.Age(b, at).jar, o) && at <= now
    ensures var cs := SerializeCookieChunks(value, o);
            var read := ReadCookie(ParseHeader(BR.Sends(BR.Receive(b, cs, at), now)), o.name);
            var rest := BR.Drop(BR.Age(b, at).jar, BR.DeadAt(BR.Age(b, at), now) + BR.NamesOf(cs));
            && (BR.Lasts(o, at, now) ==> read == Some(value))
            && (!BR.Lasts(o, at, now) ==> read == CT.ReadBack(rest, o.name))
            && BrowserJar.Held(rest) && CT.Unshadowed(rest, o)
  {
    var aged := BR.Age(b, at);
    var ws := [CR.Write(value, at)];
    var cs := SerializeCookieChunks(value, o);
    BR.AgeTwice(b, at);
    BR.HeldDrop(b.jar, BR.DeadAt(b, at));
    CR.LatestIsReadExactly(aged, ws, o, at, now);
    BR.DropUnshadows(aged.jar, BR.DeadAt(aged, now) + BR.NamesOf(cs), o);
    hide BR.Age, BR.Drop, CT.Unshadowed, BrowserJar.Held, ReadCookie, ParseHeader, CR.ChunkCount;
    OneWrite(aged, value, o, at, now);
  }

  lemma {:induction false} OneWrite(b: BR.Browser, value: string, o: CookieOptions, at: int, now: int)
    ensures var ws := [CR.Write(value, at)];
            var cs := SerializeCookieChunks(value, o);
            && CR.ReceiveAll(b, ws, o) == BR.Receive(b, cs, at)
            && (BR.Lasts(o, at, now) ==> CR.MostChunks(CR.LiveValues(ws, o, now)) == CR.ChunkCount(value))
            && (!BR.Lasts(o, at, now) ==> CR.Outlived(ws, o, now) == BR.NamesOf(cs))
  {
    hide SerializeCookieChunks, CR.ChunkCount, BR.Receive;
    var ws := [CR.Write(value, at)];
    assert ws[1..] == [];
    assert CR.LiveValues(ws[1..], o, now) == [] && CR.Outlived(ws[1..], o, now) == {};
    assert [value] + [] == [value] && [value][1..] == [];
  }

  /**
   * Signing in works end to end. Whatever else the browser holds, its request `ms` after the
   * response is recognised as the new session as long as the cookie lasts, a whole number of
   * seconds, and the session is not idle; it is answered as expired while the cookie lasts
   * but the session is idle; and once the cookie has gone it is answered as if the sign-in
   * had only removed what it wrote over, which is as not found when no other spelling of the
   * cookie was held.
   */
  lemma {:induction false} SignInIsRecognised(site: Site, w: World, b: BR.Browser, subject: Subject, claims: ClaimMap,
                                              newId: Id, ms: nat)
    requires Wired(site) && Reachable(site.cfg, w) && newId !in w.born && newId != ""
    requires Decode(site.cfg.shape, claims).Some?
    requires BrowserJar.Held(b.jar) && CT.Unshadowed(BR.Age(b, w.now).jar, site.cookie)
    ensures var (a, backend) := SignIn(site, w.backend, subject, claims, newId, w.now, {});
            var later, later' := w.now + ms, Expire(backend, w.now + ms);
            var r := FromRequest(site, later', BR.Sends(BR.Receive(b, a.setCookies, w.now), later), later, {}).0;
            var aged := BR.Age(b, w.now);
            var rest := BR.Drop(aged.jar, BR.DeadAt(aged, later) + BR.NamesOf(a.setCookies));
            var held := ms < 1000 * (site.cfg.absoluteTtlMs / 1000);
            && a.error == None
            && a.session == Some(Session(newId, subject, Decode(site.cfg.shape, claims).value, w.now, w.now,
                                         w.now + site.cfg.absoluteTtlMs))
            && (held && ms <= site.cfg.idleTtlMs ==>
                  r.session == Some(Session(newId, subject, Decode(site.cfg.shape, claims).value, w.now, later,
                                            w.now + site.cfg.absoluteTtlMs)))
            && (held && ms > site.cfg.idleTtlMs ==> r == Answer(None, Some(SessionExpired), []))
            && (!held ==> r == FromRequest(site, later', BrowserJar.RequestHeader(rest), later, {}).0)
            && (!held && !Has(rest, site.cookie.name) && !Has(rest, HOST_PREFIX + site.cookie.name) ==>
                  r == Answer(None, Some(SessionNotFound), []))
  {
    hide Inv, ReadSession, Issue, ReadCookie, SerializeCookieChunks, ParseHeader, Reachable, Expire;
    hide BR.Receive, BR.Sends, BR.Age, BR.Drop, BrowserJar.Held, BrowserJar.RequestHeader;
    ReachableInv(site.cfg, w);
    FreshTokenReads(site.cfg, w, subject, claims, newId, ms);
    var issued := Issue(site.cfg, w.backend, subject, claims, newId, w.now, {}).0;
    var value := site.codec.sign(issued.token);
    var cs := SerializeCookieChunks(value, site.cookie);
    WriteReadLater(b, value, site.cookie, w.now, w.now + ms);
    SignedIsPresented(site, issued.token);
    var aged := BR.Age(b, w.now);
    var rest := BR.Drop(aged.jar, BR.DeadAt(aged, w.now + ms) + BR.NamesOf(cs));
    if !Has(rest, site.cookie.name) && !Has(rest, HOST_PREFIX + site.cookie.name) {
      CT.NothingIsRead(rest, site.cookie.name);
    }
    AbsentIsUnknown(site, Expire(SignIn(site, w.backend, subject, claims, newId, w.now, {}).1, w.now + ms), w.now + ms);
  }

  lemma AbsentIsUnknown(site: Site, b: Backend, now: int)
    ensures ReadSession(site.cfg, b, Present(site.codec, None), now, {}).0 == ReadFailed(SessionNotFound)
  {
  }

  /**
   * What a request is answered that carries none of this site's tokens: not found without a
   * cookie, a signature mismatch with any other text in it; and the store is left alone.
   */
  lemma {:induction false} StrangersAreRefused(site: Site, b: Backend, header: Option<string>, now: int, faults: Faults)
    requires Ideal(site.codec)
    ensures var text := ReadCookie(ParseHeader(header), site.cookie.name).GetOr("");
            (forall p :: text != site.codec.sign(p)) ==>
              FromRequest(site, b, header, now, faults) ==
              (Answer(None, Some(if text == "" then SessionNotFound else TokenSignatureMismatch), []), b)
  {
    hide ReadCookie, ParseHeader, SerializeCookieChunks;
    var text := ReadCookie(ParseHeader(header), site.cookie.name).GetOr("");
    if site.codec.verify(text).Some? {
      assert text == site.codec.sign(site.codec.verify(text).value);
    }
  }

  /** When a sign-in is refused and what the browser is told then. */
  lemma {:induction false} SignInFailsExactly(site: Site, b: Backend, subject: Subject, claims: ClaimMap, newId: Id,
                                              now: int, faults: Faults)
    ensures var (a, b') := SignIn(site, b, subject, claims, newId, now, faults);
            var refused := Decode(site.cfg.shape, claims).None?;
            var stopped := !refused && b != NoStore && WriteNew in faults;
            && (refused ==> a == Answer(None, Some(InvalidToken(ClaimsToken)), []))
            && (stopped ==> a == Answer(None, Some(StoreError), []))
            && (a.session.None? <==> refused || stopped)
            && (a.session.None? ==> b' == b)
  {
    hide SerializeCookieChunks, Decode;
  }

  /** No request with a copy of a token of the family is recognised, in any later run. */
  ghost predicate OverForRequests(site: Site, w: World, root: Id) {
    forall after, q, copy, faults ::
      Admissible(site.cfg, w, after) && OfFamily(Run(site.cfg, w, after), root, q)
      && CT.ReadBack(copy, site.cookie.name) == Some(site.codec.sign(q)) ==>
        FromRequest(site, Run(site.cfg, w, after).backend, BrowserJar.RequestHeader(copy), Run(site.cfg, w, after).now,
                    faults).0.session == None
  }

  /** Any token can be carried by some browser. */
  lemma {:induction false} SomeCopy(site: Site, q: Payload) returns (copy: Jar)
    requires Wired(site)
    ensures CT.ReadBack(copy, site.cookie.name) == Some(site.codec.sign(q))
  {
    var o := site.cookie.(maxAgeSeconds := None);
    copy := CT.Written([], site.codec.sign(q), o);
    assert CT.Unshadowed([], o) by {
      forall key ensures !ChunkReading.HasChunk([], o.name, key)
                         && !ChunkReading.HasChunk([], HOST_PREFIX + o.name, key) { }
    }
    CT.WriteThenRead([], site.codec.sign(q), o);
  }

  lemma {:induction false} RequestReads(site: Site, b: Backend, copy: Jar, q: Payload, now: int, faults: Faults)
    requires Wired(site) && CT.ReadBack(copy, site.cookie.name) == Some(site.codec.sign(q))
    ensures FromRequest(site, b, BrowserJar.RequestHeader(copy), now, faults).0.session == None <==>
            ReadSession(site.cfg, b, Signed(q), now, faults).0.ReadFailed?
  {
    SignedIsPresented(site, q);
    hide ReadSession, ReadCookie, ParseHeader, BrowserJar.RequestHeader;
  }

  lemma {:induction false} RequestsAgree(site: Site, w: World, root: Id)
    requires Wired(site)
    ensures OverForRequests(site, w, root) <==> Over(site.cfg, w, root)
  {
    hide ReadSession, FromRequest, Run, Admissible, OfFamily, CT.ReadBack, Wired;
    if Over(site.cfg, w, root) {
      forall after, q, copy, faults | Admissible(site.cfg, w, after) && OfFamily(Run(site.cfg, w, after), root, q)
                                      && CT.ReadBack(copy, site.cookie.name) == Some(site.codec.sign(q))
        ensures FromRequest(site, Run(site.cfg, w, after).backend, BrowserJar.RequestHeader(copy),
                            Run(site.cfg, w, after).now, faults).0.session == None
      {
        RequestReads(site, Run(site.cfg, w, after).backend, copy, q, Run(site.cfg, w, after).now, faults);
      }
    }
    if OverForRequests(site, w, root) {
      forall after, q, faults | Admissible(site.cfg, w, after) && OfFamily(Run(site.cfg, w, after), root, q)
        ensures ReadSession(site.cfg, Run(site.cfg, w, after).backend, Signed(q), Run(site.cfg, w, after).now, faults)
                .0.ReadFailed?
      {
        var copy := SomeCopy(site, q);
        RequestReads(site, Run(site.cfg, w, after).backend, copy, q, Run(site.cfg, w, after).now, faults);
      }
    }
  }

  lemma {:induction false} SignOutDestroys(site: Site, w: World, header: Option<string>, p: Payload)
    requires Ideal(site.codec) && ReadCookie(ParseHeader(header), site.cookie.name) == Some(site.codec.sign(p))
    ensures var (setCookies, backend) := SignOut(site, w.backend, header, w.now, {});
            && w.(backend := backend) == Step1(site.cfg, w, DoDestroy(Signed(p), {})).0
            && setCookies == ClearCookieChunks(ParseHeader(header), site.cookie)
  {
    SignedIsPresented(site, p);
    hide ReadCookie, ParseHeader, DestroySession;
  }

  /**
   * Signing out, end to end. The browser carries no token in any later request. The session
   * is over for good, for every copy of every token it ever had or will have, if and only if
   * each other record of the session, under the ids it had before and after rotations, is
   * closed at that moment.
   */
  lemma {:induction false} SignOutExactly(site: Site, w: World, b: BR.Browser, p: Payload, x: Id, later: int)
    requires Wired(site) && Reachable(site.cfg, w) && w.backend != NoStore
    requires BrowserJar.Held(b.jar)
    requires ReadCookie(ParseHeader(BR.Sends(b, w.now)), site.cookie.name) == Some(site.codec.sign(p))
    requires p in w.tokens && p.sid == Some(x)
    ensures x in w.born
    ensures var (setCookies, backend) := SignOut(site, w.backend, BR.Sends(b, w.now), w.now, {});
            var w1 := w.(backend := backend);
            && w1 == Step1(site.cfg, w, DoDestroy(Signed(p), {})).0
            && (CT.Deletable(site.cookie) ==>
                  ReadCookie(ParseHeader(BR.Sends(BR.Receive(b, setCookies, w.now), later)), site.cookie.name) == None)
            && (OverForRequests(site, w1, RootOf(w, x)) <==>
                forall id :: InFamily(w, RootOf(w, x), id) && id != x ==> ClosedWithout(site.cfg, w, x, id))
  {
    hide ReadCookie, ParseHeader, Reachable, OverForRequests, Over, Step1, SignOut, RootOf, InFamily, ClosedWithout;
    hide BrowserJar.Held, BR.Sends, BR.Receive;
    SignOutDestroys(site, w, BR.Sends(b, w.now), p);
    EndingSessionExactly(site.cfg, w, Signed(p), x);
    RequestsAgree(site, Step1(site.cfg, w, DoDestroy(Signed(p), {})).0, RootOf(w, x));
    if CT.Deletable(site.cookie) {
      ClearedForGood(b, site.cookie, w.now, later);
    }
  }

  /** Copies that name the id signed out fail in every later run. */
  lemma {:induction false} SignedOutIdsFail(site: Site, w: World, p: Payload, after: seq<Step>, q: Payload, copy: Jar,
                                            faults: Faults)
    requires Wired(site) && Reachable(site.cfg, w) && w.backend != NoStore
    requires p in w.tokens && q in w.tokens && q.sid == p.sid
    requires CT.ReadBack(copy, site.cookie.name) == Some(site.codec.sign(q))
    requires Admissible(site.cfg, w, [DoDestroy(Signed(p), {})] + after)
    ensures var w' := Run(site.cfg, w, [DoDestroy(Signed(p), {})] + after);
            FromRequest(site, w'.backend, BrowserJar.RequestHeader(copy), w'.now, faults).0.session == None
  {
    DestroyIsFinal(site.cfg, w, Signed(p), after, q, faults);
    var w' := Run(site.cfg, w, [DoDestroy(Signed(p), {})] + after);
    RequestReads(site, w'.backend, copy, q, w'.now, faults);
  }

  lemma ClearedForGood(b: BR.Browser, o: CookieOptions, now: int, later: int)
    requires BrowserJar.Held(b.jar) && CT.PlainName(o.name) && CT.Deletable(o)
    ensures var cs := ClearCookieChunks(ParseHeader(BR.Sends(b, now)), o);
            ReadCookie(ParseHeader(BR.Sends(BR.Receive(b, cs, now), later)), o.name) == None
  {
    hide ReadCookie, ParseHeader;
    var aged := BR.Age(b, now);
    var cs := ClearCookieChunks(ParseHeader(BR.Sends(b, now)), o);
    BR.HeldDrop(b.jar, BR.DeadAt(b, now));
    CT.NothingLeft(aged.jar, o);
    var b1 := BR.Receive(b, cs, now);
    assert b1.jar == CT.Cleared(aged.jar, o);
    var dead := BR.DeadAt(b1, later);
    BR.HeldDrop(b1.jar, dead);
    forall key ensures Get(BR.Drop(b1.jar, dead), key) == if key in dead then None else Get(b1.jar, key) {
      BR.GetDrop(b1.jar, dead, key);
    }
    StillNoChunks(b1.jar, BR.Drop(b1.jar, dead), o.name);
    StillNoChunks(b1.jar, BR.Drop(b1.jar, dead), HOST_PREFIX + o.name);
    CT.NothingIsRead(BR.Drop(b1.jar, dead), o.name);
  }

  lemma StillNoChunks(jar: Jar, fewer: Jar, name: string)
    requires ChunkReading.NoChunks(jar, name) && forall key :: Has(fewer, key) ==> Has(jar, key)
    ensures ChunkReading.NoChunks(fewer, name)
  {
    forall key ensures !ChunkReading.HasChunk(fewer, name, key) {
      assert !ChunkReading.HasChunk(jar, name, key);
    }
  }
}
