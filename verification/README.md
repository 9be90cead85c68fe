# Effuse: verified models of its state machines and algorithms

This project models the parts of Effuse that are protocols or algorithms with little input
and output, and proves what they promise over all inputs, all runs and all interleavings.

**Sessions.** `SessionEngine` issues, reads, rotates and destroys sessions over a store;
`SessionStore` holds the storage-backed store (records and a subject index, both with a time
to live, over `TtlStorage`) and the reference store that scans. Each engine call is one
transition of the observable backend, given as a function; the classes `Engine`,
`StorageSessionStore`, `MemorySessionStore` and `TtlMap` update their fields in place and are
proved to make exactly that transition. `SessionRuns` makes whole runs of it, with time
passing and any store call failing in between, `SessionInvariants` the invariant, and
`SessionTheorems`, `SessionClaims`, `SessionFamilies`, `SessionErrors`, `SessionCounts`,
`StoreRefinement`, `StoreLifetime` and `SlidingWindow` what follows.

**Cookies.** `PercentEncoding`, `CookieSplit`, `Cookies`, `BrowserJar`, `ChunkReading` and
`CookieTransport` follow a token out through `Set-Cookie`, through an arbitrary browser state
and back through the `Cookie` header, and `HeaderParsing` says what any header text means;
`AgingBrowser` lets cookies expire, and `CookieRenewal` follows any history of writes over time.
`AuthServer` puts the engine behind that cookie and states what holds end to end;
`BrowserSessions` follows a browser that comes back.

**Counters and one-shot capabilities.** `RateLimiter`, `Credentials` with `Lockout` and
`SignInRules`, `ResetStore` with `PasswordReset`, `ResetCapability` and `ResetOutcome`,
`PasswordChange` and `PasswordHasher`.

**Algorithms elsewhere.** The compiler's signal walk and wrapping transform (`SignalWalk`,
`TreeWalk`, `JsxTransform`, `WrapPlacement`) and its result cache (`SourceCache`,
`CacheLifetime`, `ContentHash`, `CachedTransform`); keyed reconciliation (`KeyedList`,
`KeyedListTheorems`); the effect scheduler (`WatchEffect`, `EffectRuns`); the locale race (`LocaleRace`); the plugin host (`PluginHost`).

`dafny verify dfyconfig.toml` checks the whole project.

## Assumptions

- A session-engine call is atomic and reads the clock once; the clock does not go back; new
  ids are fresh and not empty; a token is a payload that was signed, or does not verify.
- Store calls may fail, and then have no effect. Records in a store were written by the engine.
- Cookie names are letters, digits, `.`, `-` and `_`. A browser identifies a cookie by its
  name (one path and domain), keeps cookies in any order, and drops each when its Max-Age has
  run out, on the server's clock and with no time spent on the way. It ignores a `__Host-`
  cookie, or one for cross-site requests, that is not set up as such cookies must be.
- The text of a signed token never takes fewer cookie chunks as the instant of last use in it
  grows (`BrowserSessions.NeverShrinks`, for `BrowserSessions.StaysSignedInExactly` alone; what
  happens otherwise is `BrowserSessions.NextRequestExactly`).
- The hash stored for a password verifies that password only (`SignInRules.Hashes`, for
  `SignInRules.OnlyTheLastPasswordSignsIn` alone).
- Password hashing, key derivation, identifier normalisation, password policies, number parsing
  and base64url are parameters; `PasswordHasher.Lawful` names the laws used. Among them: scrypt
  refuses a cost that is no power of two above one, and parameters whose blocks, 128 bytes times
  the block size for each of the cost, the parallelism and two more, exceed the memory allowed.
- Printed settings determine the settings (`CachedTransform.Lawful`).
- Every reset digest is drawn once, and so is every password hash. `redeem` and
  `changePassword` can be interrupted at each await; a rejected call had no effect.
- Rendering a list child gives a fresh node. Cleanups do not call back into their effect.
- Plugin event listeners do not throw, and starts do not overlap.

## Where the code differs from what one might expect

Each of these is proved, with the exact condition, by the member named.

- Writing a chunked cookie without clearing first, as `signIn` and `fromRequest` do
  (packages/auth/src/server/create-auth-server.ts:183-215), reads back every value only if
  nothing in the browser shadows it: stale chunks, or a cookie under the other prefix
  (`CookieTransport.WritesReadBackExactly`). Over time the last value wins exactly if no write
  that is still within its Max-Age took more chunks (`CookieRenewal.LatestIsReadExactly`).
- Ending a session, as `signOut` does, removes the record of one id
  (packages/auth/src/server/session-engine.ts:575-592). A session that was rotated can live on
  under another: under the newer id, if it is ended with a token just rotated away
  (`SessionFamilies.EndingWithTheOldToken`), or under the older ones, if it is ended with the
  newest (`SessionFamilies.EndingWithTheNewestToken`). It is over for good exactly if all its
  other records are closed (`SessionFamilies.EndingSessionExactly`).
- A rotation marks the old record before it stores the new one. If only the second write is
  rejected, no token is given out and the old ones are revoked all the same
  (`SessionErrors.HalfRotationExactly`).
- The cookie lasts a whole number of seconds, so up to a second less than the session, and not
  at all below one second; after that the answer is not found rather than expired
  (`AuthServer.SignInIsRecognised`).
- Clearing cannot delete a `__Host-` chunk when the options no longer qualify for that
  prefix, since the deletion is then not a cookie a browser accepts under that name
  (`CookieTransport.ClearUnshadows`).
- A missing chunk before the last is always noticed (`ChunkReading.OnlyWholeReads`); a missing
  last one never is (`ChunkReading.LastMissingGoesUnnoticed`).
- `scope::key` identifies a budget uniquely for the scopes in use, though not for all scopes
  (`RateLimiter.ScopesShareExactly`). A limiter with limit zero never admits, whatever its
  retryAfterMs says (`RateLimiter.RetryAfterIsExact`).
- Looking at an exactly exhausted budget says `allowed`, though the next attempt is refused
  (`RateLimiter.LookingExactly`).
- Reads at most `idleTtlMs` apart do not keep a session alive; the gap must also leave room
  for the renewal threshold (`SlidingWindow.SafeGapExactly`, and for a browser's requests
  `BrowserSessions.StaysSignedInExactly`).
- A redemption revokes the subject's sessions before it updates the password, so a sign-in
  with the old password in between survives it (`PasswordReset.RedemptionLeavesExactly`).
- If the revocation or the update rejects, the capability is spent all the same
  (`PasswordReset.StoppedLeavesExactly`). A password change that loses its swap has revoked the
  subject's sessions already (`PasswordChange.ChangeLeavesExactly`).
- The bitwise power-of-two test is wrong beyond 32 bits; the memory ceiling keeps the parser
  right (`PasswordHasher.PowerTestIsWrongBeyond32Bits`, exactly `PasswordHasher.PowerTestExactly`;
  `PasswordHasher.AcceptedCostsAreTruePowers`).
- In production `For` fires exit callbacks for children it keeps
  (`KeyedListTheorems.ProductionCallbacksExactly`), and a list that becomes empty fires none
  (`KeyedListTheorems.EmptiedCallbacksExactly`).
- An effect that stops itself in a leading run still sets its debounce timer; nothing runs when
  it fires (`WatchEffect.StopLeavesTimerExactly`, `WatchEffect.StopSettlesEverything`).
- Resuming an effect runs it at once and calls back no microtask that is pending, which then
  runs it again (`EffectRuns.ResumingBeforeTheMicrotask`).
- The source cache does not evict by use alone: rewriting a key does not move it
  (`SourceCache.RewrittenIsEvictedReadIsNot`), and an empty file name in front stops eviction
  (`SourceCache.StoreIsBoundedExactly`).
- The content hash has 32 bits and collides on ordinary text, such as the sources `costarring`
  and `liquid` of one file; the second can be given the first one's code
  (`CachedTransform.TransparentExactly`, `CachedTransform.WordsAreConfused`).

## Model

| member | source | states |
|---|---|---|
| TtlStorage.TtlMap.Get | packages/auth/src/testing/storage.ts:59-74 | the live value or nothing; an expired entry may be reclaimed, and what can be observed at that instant does not change |
| TtlStorage.TtlMap.Set | packages/auth/src/testing/storage.ts:75-85 | with a lifetime, what can be observed afterwards is the old view with the key bound for that long, or unbound if it is not positive; without one, the key is bound for every observer at every instant |
| TtlStorage.TtlMap.Delete | packages/auth/src/testing/storage.ts:86-90 | the key is gone for every observer at every instant, and nothing else is |
| TtlStorage.LiveAtComposes | packages/auth/src/testing/storage.ts:59-69 | observing at a later instant is observing the earlier observation: lazy reclaiming is invisible and nothing expired returns |
| Claims.DecodeRestricts | packages/auth/src/claims.ts:193-233 | decoded claims are exactly the input cut down to the declared names |
| Claims.DecodeExactly | packages/auth/src/claims.ts:193-233 | claims are accepted exactly when every declared name is allowed, every declared claim that is there passes its check and every missing one is optional |
| Claims.DecodeIdempotent | packages/auth/src/claims.ts:193-233 | claims that were decoded once decode to themselves, so a stored session never turns invalid |
| SessionStore.StorageSessionStore.ReadRecord | packages/auth/src/server/storage-session-store.ts:99 | reads the live record and changes nothing observable |
| SessionStore.StorageSessionStore.AddToIndex | packages/auth/src/server/storage-session-store.ts:89-96 | a new id is appended with a fresh deadline; a known id leaves the index entry and its deadline alone |
| SessionStore.StorageSessionStore.WriteRecord | packages/auth/src/server/storage-session-store.ts:101-104 | the whole new observable state: the record with a fresh deadline, and the index as by AddToIndex |
| SessionStore.StorageSessionStore.DestroyRecord | packages/auth/src/server/storage-session-store.ts:106-122 | the whole new observable state: record gone, id filtered out of its subject's entry, entry dropped when empty |
| SessionStore.StorageSessionStore.DestroyAllFor | packages/auth/src/server/storage-session-store.ts:124-131 | the loop over the index removes exactly the listed records and the entry, and counts the listed ids |
| SessionStore.StorageSessionStore.ViewExpires | packages/auth/src/testing/storage.ts:59-69 | between calls the store only loses what has expired, so runs may treat the passage of time as one step |
| SessionStore.MemorySessionStore.DestroyAllFor | packages/auth/src/testing/index.ts:140-148 | the scan removes exactly the subject's records and counts them |
| SessionEngine.Engine.IssueSession | packages/auth/src/server/session-engine.ts:408-428 | result and store after a sign-in, on the storage-backed store, are the transition all run theorems are about |
| SessionEngine.Engine.ReadToken | packages/auth/src/server/session-engine.ts:430-528 | the same for a read: signed expiry, one-hop supersession, absolute and idle expiry, claims, renewal, with store faults |
| SessionEngine.Engine.RotateToken | packages/auth/src/server/session-engine.ts:530-573 | the same for a rotation: read, mark the predecessor, write the successor, stopping at the first store fault |
| SessionEngine.Engine.DestroyToken | packages/auth/src/server/session-engine.ts:575-592 | the same for ending one session |
| SessionEngine.Engine.DestroySubjectSessions | packages/auth/src/server/session-engine.ts:594-602 | the same for ending all sessions of a subject |
| SessionInvariants.ReadOutcome | packages/auth/src/server/session-engine.ts:430-528 | a read keeps every invariant and every record's presence; what it returns is true to the birth of the session, unexpired, and if already rotated away its parent's window is still open |
| SessionInvariants.RotateKeepsInv | packages/auth/src/server/session-engine.ts:530-573 | a rotation keeps every invariant, with any store faults in between |
| SessionInvariants.StepKeepsInv | packages/auth/src/server/session-engine.ts:408-602 | every call, and the passage of time, keeps the invariant tying records, index, tokens, births and overlap windows together |
| SessionInvariants.RunKeepsInv | packages/auth/src/server/session-engine.ts:408-602 | so does every run |
| SessionTheorems.IndexAgreesWithScan | packages/auth/src/server/storage-session-store.ts:89-131 | in every reachable state each stored session before its absolute expiry is listed in a still-live index entry of its own subject, although re-indexing never refreshes the entry |
| SessionTheorems.DestroyAllIsFinal | packages/auth/src/server/storage-session-store.ts:124-131 | after ending a subject's sessions no token signed for that subject before reads ok at any point of any later run |
| SessionTheorems.DestroyIsFinal | packages/auth/src/server/session-engine.ts:575-592 | after removing the record of one id, every token that names this id fails in every later run; what becomes of the other ids of the same session is SessionFamilies.EndingSessionExactly |
| SessionFamilies.RootIsSignIn | packages/auth/src/server/session-engine.ts:530-552 | every id descends from one sign-in, of the same subject, at the creation time of its session |
| SessionFamilies.RunStaysClosed | packages/auth/src/server/session-engine.ts:430-573 | once every record of a session, under all ids it ever had, is closed, no run opens one of them or adds an id to it |
| SessionFamilies.EndingSessionExactly | packages/auth/src/server/session-engine.ts:575-592 | ending a session by one of its ids ends it for good, for every token it ever had or will have, if and only if each other record of the session is, at that moment, past its absolute expiry; or idle, if not rotated away; or past its window, or rotated away to that id, to a missing record or to an idle one |
| SessionFamilies.EndingWithTheOldToken | packages/auth/src/server/session-engine.ts:543-592 | whenever a token can be rotated, ending the session with it afterwards leaves the token it was rotated to alive |
| SessionFamilies.EndingWithTheNewestToken | packages/auth/src/server/session-engine.ts:470-592 | after two rotations, ending the session with the newest token leaves the oldest alive, reading as the session in between |
| SessionTheorems.OverlapBounds | packages/auth/src/server/session-engine.ts:551-570 | a window closes at most one overlap after the later of its first marking and the parent's window; a signed-in session's window never moves once set |
| SessionTheorems.WindowsClose | packages/auth/src/server/session-engine.ts:551-570 | any window closes within one overlap per generation since sign-in, counted from its first marking |
| SessionTheorems.RotatedAwayIdsDie | packages/auth/src/server/session-engine.ts:470-488 | no run of rotations keeps an old id alive: from an instant fixed at its first rotation its tokens fail in every continuation |
| SessionTheorems.WindowsGrowAlongLinks | packages/auth/src/server/session-engine.ts:543-570 | along a successor link the window never closes earlier |
| SessionTheorems.OneHopIsEnough | packages/auth/src/server/session-engine.ts:470-488 | the record a token resolves to after one unchecked hop is not superseded, or still inside its own window |
| SessionTheorems.LinksAreAcyclic | packages/auth/src/server/session-engine.ts:543-570 | no chain of successor links returns to its start |
| SessionTheorems.AbsoluteLifetimeIsConserved | packages/auth/src/server/session-engine.ts:279-298 | every token and record descended from a sign-in expires exactly one absolute lifetime after it, so the signed check and the stored check agree |
| SessionTheorems.QuietRunKeepsAll | packages/auth/src/server/storage-session-store.ts:101-104 | without destroys and store faults every id drawn keeps its record up to its absolute expiry |
| SessionTheorems.IssuedTokensAreNeverUnknown | packages/auth/src/server/session-engine.ts:450-511 | on such runs a signed token reads as expired exactly when it is past its absolute lifetime or, its window still open, the record it resolves to has idled too long; as revoked exactly when its window closed first; and otherwise as that session, of its own subject; never as not found |
| SessionTheorems.RunGrows | packages/auth/src/server/session-engine.ts:408-602 | births, first markings and windows are never forgotten or shortened and no removed record reappears |
| SessionClaims.SignedInClaims | packages/auth/src/server/session-engine.ts:408-428 | the token of a sign-in, read at that instant under any strategy and store, gives the new id with the decoding of the claims asked for |
| SessionClaims.RotatedClaims | packages/auth/src/server/session-engine.ts:530-573 | the token of a rotation, read at that instant, gives the session that went before with the new id and the decoding of the changes given, or of the claims it had when none are given |
| SessionClaims.SameIdSameClaims | packages/auth/src/server/session-engine.ts:430-573 | two successful reads that name the same session, however far apart in any run, agree on subject, claims and lifetime |
| SessionClaims.RotatedClaimsLast | packages/auth/src/server/session-engine.ts:530-573 | so the claims of a rotation are what every later read naming the new session returns, and the token it returned goes on naming that session until it is rotated away itself |
| SessionErrors.ReadErrorsExactly | packages/auth/src/server/session-engine.ts:430-511 | of a token that was signed: a read reports expired, revoked, not found or a store failure, each if and only if the history of its session, its record and the store calls say so, and nothing else |
| SessionErrors.SignInErrorsExactly | packages/auth/src/server/session-engine.ts:408-428 | a sign-in fails exactly for refused claims or a rejected write, and then nothing came of it |
| SessionErrors.RotateErrorsExactly | packages/auth/src/server/session-engine.ts:530-573 | a rotation fails exactly as its read does, for refused claims, or for a rejected store call |
| SessionErrors.HalfRotationExactly | packages/auth/src/server/session-engine.ts:556-573 | a rotation that failed only in storing the new record leaves the old tokens revoked; one that failed before leaves the session readable as it was |
| SessionErrors.EndingIsReported | packages/auth/src/server/session-engine.ts:575-592 | ending a session reports true exactly if a store took the call, the record is then gone, and otherwise nothing changed |
| SessionCounts.RunKeepsTight | packages/auth/src/server/storage-session-store.ts:89-131 | over every run the index lists no id twice, and lists an id without a record only once its session is past its absolute lifetime |
| SessionCounts.EndedAreCounted | packages/auth/src/server/session-engine.ts:594-602 | the number ending all sessions returns: the sessions ended, plus on the storage-backed store the listed ids whose records are gone |
| StoreLifetime.NeverForgetsExactly | packages/auth/src/server/create-auth-server.ts:132-143 | signed tokens are never unknown if and only if the store's lifetime reaches the absolute session lifetime, which the wiring makes it do |
| StoreLifetime.ShorterTtlLosesTheIndex | packages/auth/src/server/storage-session-store.ts:89-104 | with a shorter lifetime, one read in between keeps a record past its index entry and ending all sessions then misses it |
| StoreRefinement.StorageStoreRefinesReference | packages/auth/src/server/storage-session-store.ts:98-131 | over every run the engine answers every call alike on the indexed, expiring store and on the reference store that scans |
| StoreRefinement.StepAlike | packages/auth/src/testing/index.ts:116-148 | one call: same answer, and the two stores still agree on every session before its absolute expiry |
| SlidingWindow.ReadMovesLag | packages/auth/src/server/session-engine.ts:494-521 | for either strategy, with a store or without: a read succeeds exactly while the idle window is open, and the instant of last use the client's latest token leads to lags by less than the renewal threshold |
| SlidingWindow.ReadSlidesExactly | packages/auth/src/server/session-engine.ts:507-521 | a read writes back only the instant of last use of the session it returned, exactly when that is due and the store takes it, and in the stateless strategy not through a token rotated away |
| SlidingWindow.SafeGapExactly | packages/auth/src/server/session-engine.ts:507-521 | reads at most so far apart keep a session alive to its absolute expiry if and only if the gap plus the renewal lag fits in the idle window |
| PercentEncoding.DecodeEncode | packages/auth/src/server/cookies.ts:96-217 | percent-decoding undoes percent-encoding (section 2.1 of RFC 3986 over UTF-8, section 3 of RFC 3629) for every string |
| PercentEncoding.EncodeChars | packages/auth/src/server/cookies.ts:96-96 | encoded text has only unreserved marks and escapes, so no cookie separator |
| CookieSplit.SplitByEncodedBytes | packages/auth/src/server/cookies.ts:139-160 | the loop computes the greedy split |
| CookieSplit.SplitCorrect | packages/auth/src/server/cookies.ts:139-187 | chunks join to the value, each fits, none is empty when split, a value stays whole exactly when it fits, and no other split within the limit has fewer chunks |
| CookieSplit.OversizeSplits | packages/auth/src/server/cookies.ts:139-187 | an oversize value always yields at least two chunks |
| CookieSplit.ChunkBytes | packages/auth/src/server/cookies.ts:47-47 | an encoded chunk takes at most 3800 bytes |
| Cookies.ParseCookieHeader | packages/auth/src/server/cookies.ts:193-226 | the parsing loop against its specification |
| Cookies.ReadChunkedCookie | packages/auth/src/server/cookies.ts:243-277 | the reading loop, host-prefixed candidate first and stopping at a gap, against its specification |
| HeaderParsing.PairExactly | packages/auth/src/server/cookies.ts:193-226 | a pair counts exactly if, split at its first equals sign and trimmed, it assigns to a name neither empty nor forbidden |
| HeaderParsing.HeaderExactly | packages/auth/src/server/cookies.ts:193-226 | for any header text: every name at most once, with the first value assigned to it, and no other names |
| BrowserJar.HeaderRoundTrip | packages/auth/src/server/cookies.ts:193-226 | for any browser state that arose from accepted cookies, parsing the rendered Cookie header gives exactly the stored names with decoded values |
| ChunkReading.ChunkNamesAre | packages/auth/src/server/cookies.ts:228-241 | the chunk names found are exactly those present, each once, in numeric order, ten or more included |
| ChunkReading.OnlyWholeReads | packages/auth/src/server/cookies.ts:252-272 | chunks read at all if and only if they are numbered without a gap from zero |
| ChunkReading.WholeReads | packages/auth/src/server/cookies.ts:252-272 | and then read as their values joined in numeric order |
| ChunkReading.LastMissingGoesUnnoticed | packages/auth/src/server/cookies.ts:252-272 | chunks of which only the last is missing read as the value cut short |
| CookieTransport.WritesReadBackExactly | packages/auth/src/server/cookies.ts:169-187 | writing alone round-trips every value if and only if the browser keeps the cookie and nothing shadows it |
| CookieTransport.ClearUnshadows | packages/auth/src/server/cookies.ts:279-304 | clearing removes all shadowing exactly when deletions are accepted or there was no host-prefixed chunk |
| CookieTransport.ClearThenWriteReadsBack | packages/auth/src/server/cookies.ts:169-304 | clear, write, render, parse and read returns every value over any prior browser state, with the exact condition on the options |
| CookieTransport.ClearedReadsNothing | packages/auth/src/server/cookies.ts:279-304 | after clearing alone nothing is read, in every browser, if and only if deletions are accepted |
| CookieRenewal.Rewrite | packages/auth/src/server/create-auth-server.ts:193-200 | one more write over what earlier writes left: the value is read back if and only if it takes at least as many chunks as are there |
| CookieRenewal.CarriedIsRead | packages/auth/src/server/cookies.ts:252-272 | chunks left by writes are what is read, all of them joined |
| AgingBrowser.SameReadsAlike | packages/auth/src/server/cookies.ts:193-277 | what is read back depends only on which cookies the browser holds, not on their order |
| AgingBrowser.WriteSeenLater | packages/auth/src/server/create-auth-server.ts:164-174 | what a written cookie leaves at any later instant, before and after its Max-Age has run out |
| CookieRenewal.HistoryIsItsLiveWrites | packages/auth/src/server/create-auth-server.ts:164-215 | what a history of writes leaves at any later instant is what its writes still within their Max-Age would have left alone |
| CookieRenewal.LatestIsReadExactly | packages/auth/src/server/create-auth-server.ts:164-215 | over any history of writes without clearing, as renewals are, and at any later instant: while the last write is within its Max-Age its value is read back if and only if no write still within its own took more chunks; after that nothing of the history is left |
| AuthServer.AuthServerImpl.constructor | packages/auth/src/server/create-auth-server.ts:132-174 | the store lives as long as a session may, and the cookie as many whole seconds |
| AuthServer.AuthServerImpl.HandleRequest | packages/auth/src/server/create-auth-server.ts:183-201 | answer and store after a request, from cookie text to renewed cookies, against the transition the theorems are about |
| AuthServer.AuthServerImpl.StartSession | packages/auth/src/server/create-auth-server.ts:203-215 | the same for a sign-in |
| AuthServer.AuthServerImpl.EndSession | packages/auth/src/server/create-auth-server.ts:217-227 | the same for a sign-out |
| AuthServer.SignInIsRecognised | packages/auth/src/server/create-auth-server.ts:164-215 | end to end, with a browser that drops cookies after their Max-Age: a later request is recognised as the new session exactly while the whole seconds of the cookie and the idle window last, answered as expired while only the cookie lasts, and as not found, or by another spelling the browser still held, once the cookie is gone |
| AuthServer.SignOutExactly | packages/auth/src/server/create-auth-server.ts:217-227 | end to end: after a sign-out no later request of the browser carries a token; no copy of any token of the session, under any of its ids, is recognised in any later run if and only if each other record of the session is closed at that moment |
| AuthServer.SignedOutIdsFail | packages/auth/src/server/create-auth-server.ts:217-227 | copies that name the same id as the request that signed out are not recognised in any later run |
| AuthServer.StrangersAreRefused | packages/auth/src/server/create-auth-server.ts:183-192 | a request without a token is answered not found, one with any text this site did not sign a signature mismatch, and the store is left alone |
| AuthServer.SignInFailsExactly | packages/auth/src/server/create-auth-server.ts:203-215 | when a sign-in is refused, what the answer is then, and that the store is left alone |
| BrowserSessions.NextRequest | packages/auth/src/server/create-auth-server.ts:183-201 | after a request of a browser in which nothing shadows the cookie, the next one presents the renewed token if there is one and the cookie lasts, and otherwise sends exactly what it would have sent |
| BrowserSessions.NextRequestExactly | packages/auth/src/server/create-auth-server.ts:183-201 | after any history of writes, the next request presents the renewed token if and only if no write that still lasts took more chunks |
| BrowserSessions.RenewedReadsAlike | packages/auth/src/server/session-engine.ts:470-521 | a read renews exactly the tokens of sessions rotated away and, in the stateless strategy, those due; the renewed token names the session returned and reads as it, unless that one was rotated away itself |
| BrowserSessions.StaysSignedInExactly | packages/auth/src/server/create-auth-server.ts:164-215 | end to end from the sign-in on: a browser whose requests are at most so far apart is recognised every time if and only if the gap plus the renewal lag fits in the idle window |
| RateLimiter.MemoryRateLimiter.TryConsume | packages/auth/src/testing/index.ts:241-246 | verdict and whole new bucket state of one attempt |
| RateLimiter.AtMostTwiceTheLimit | packages/auth/src/testing/index.ts:206-254 | over any run without refunds, a closed interval of one window admits at most twice the limit for a budget |
| RateLimiter.TwiceTheLimitHappens | packages/auth/src/testing/index.ts:206-254 | the bound is met by two bursts one window apart |
| RateLimiter.RetryAfterIsExact | packages/auth/src/testing/index.ts:229-239 | after a refusal the next attempt on an idle key is admitted exactly from retryAfterMs on, and never if the limit is zero |
| RateLimiter.RemainingIsExact | packages/auth/src/testing/index.ts:229-246 | what is reported as remaining is how many more attempts would be admitted at that instant |
| RateLimiter.LookingExactly | packages/auth/src/testing/index.ts:248-248 | looking spends nothing and reports the same remaining; its allowed says more than the next attempt gets exactly when the limit is used up; and it starts the window of an idle budget |
| RateLimiter.HeaderNeverUndershoots | packages/auth/src/errors.ts:385-393 | the Retry-After seconds cover the wait and are the least positive number that does |
| RateLimiter.ScopesShareExactly | packages/auth/src/testing/index.ts:212-213 | two scopes can share a budget if and only if one, with the separator, is a prefix of the other with it |
| RateLimiter.ServiceBudgetsSeparate | packages/auth/src/server/credentials.ts:113-116 | among the scopes the services use, two budgets are the same exactly when scope and key are |
| Credentials.MemoryUserStore.RecordFailure | packages/auth/src/testing/index.ts:316-327 | whole new state: one more failure, and the lock replaced only by a given one |
| Credentials.MemoryUserStore.SwapPasswordHash | packages/auth/src/testing/index.ts:298-314 | compare-and-set of the hash, clearing the lock on success, touching nothing otherwise |
| Credentials.CredentialsProvider.SignIn | packages/auth/src/server/credentials.ts:179-269 | outcome and whole new state of a sign-in, both budgets spent first |
| Credentials.CredentialsProvider.Change | packages/auth/src/server/credentials.ts:271-375 | outcome and whole new state of a password change, the revoked sessions included, even when the swap fails |
| Lockout.CallMovesLock | packages/auth/src/server/credentials.ts:216-247 | either call moves a subject's lock only by its own mismatches, which happen only while unlocked; success clears it; nothing else touches it |
| Lockout.LockoutBoundsGuessing | packages/auth/src/server/credentials.ts:216-331 | without a success in between, the k-th wrong password comes at least (k - threshold) lock durations after the threshold-th, across both calls |
| Lockout.LockedRefusesEveryPassword | packages/auth/src/server/credentials.ts:216-226 | while the lock holds no password succeeds, none is judged and the lock is unchanged |
| SignInRules.SignsInExactly | packages/auth/src/server/credentials.ts:179-269 | a sign-in returns a subject if and only if both budgets afford it, the identifier names the subject, no lock holds and the password matches the stored hash; it counts as a failure of the subject exactly if all but the last hold; and which error it gives otherwise |
| SignInRules.SigningInLeaves | packages/auth/src/server/credentials.ts:216-269 | the record of the subject after a success, with an outdated hash upgraded, and after a wrong password; no other record changes |
| SignInRules.SigningInSpends | packages/auth/src/server/credentials.ts:183-256 | both budgets are spent by every sign-in, the one of the identifier refunded by a success, and no other budget moves |
| SignInRules.ChangesExactly | packages/auth/src/server/credentials.ts:271-365 | a change succeeds if and only if both budgets afford it, the subject is known and not locked, the current password matches, and the next one is acceptable and different; when it counts as a failure, and which error it gives otherwise |
| SignInRules.ChangingLeaves | packages/auth/src/server/credentials.ts:318-375 | a change stores the new hash, clears the failures, ends exactly the sessions of the subject and counts them; otherwise no session ends |
| SignInRules.ChangingSpends | packages/auth/src/server/credentials.ts:277-294 | both budgets are spent by every change and no other budget moves |
| SignInRules.SignInRefusalTellsTheWait | packages/auth/src/server/credentials.ts:187-226 | the wait a refused sign-in is told is exact, for either exhausted budget and for a lock |
| SignInRules.ChangeRefusalTellsTheWait | packages/auth/src/server/credentials.ts:277-315 | the same for a password change |
| SignInRules.SeededIsNamed | packages/auth/src/testing/index.ts:263-290 | a user who is added is named by every spelling of the identifier that differs in case only, and other names stay |
| SignInRules.CallsKeepNames | packages/auth/src/server/credentials.ts:179-375 | no call changes which subject an identifier names |
| SignInRules.OnlyTheLastPasswordSignsIn | packages/auth/src/server/credentials.ts:179-375 | after any run of sign-ins, changes and resets, upgrades of old hashes included, a subject whom budgets and lock admit signs in with the password last set and with no other |
| ResetStore.MemoryPasswordResetStore.ReplaceRecord | packages/auth/src/testing/index.ts:384-396 | whole new state of both maps |
| ResetStore.MemoryPasswordResetStore.ConsumeRecord | packages/auth/src/testing/index.ts:404-410 | a live record is handed out once and removed from both maps; an expired one is removed and not handed out |
| ResetStore.ReplaceKeepsInverseExactly | packages/auth/src/testing/index.ts:384-396 | the two maps stay inverse if and only if no other subject holds the digest |
| PasswordReset.SingleUse | packages/auth/src/server/password-reset.ts:178-236 | under any interleaving a capability updates at most one password, its own subject's, after the same redemption revoked that subject's sessions |
| PasswordReset.ConsumedInTime | packages/auth/src/server/password-reset.ts:199-222 | every update was preceded by consuming that capability, strictly before its expiry |
| PasswordReset.OneCapabilityPerSubject | packages/auth/src/testing/index.ts:359-396 | in every reachable state a subject has at most one live capability |
| PasswordReset.ReplacedCapabilityIsDead | packages/auth/src/server/password-reset.ts:156-176 | once replaced or revoked, a capability is never consumed again |
| PasswordReset.RedemptionLeavesExactly | packages/auth/src/server/password-reset.ts:225-228 | of its subject's sessions a completed redemption leaves exactly those opened between its revocation and its password update and not revoked again, whatever else is interleaved; none if nobody signs in between |
| PasswordReset.SignInBetweenSurvives | packages/auth/src/server/password-reset.ts:225-228 | a sign-in between the two awaits does leave a live session, in every state |
| PasswordReset.StoppedLeavesExactly | packages/auth/src/server/password-reset.ts:178-236 | of a redemption that something it waited for rejected: its capability is spent exactly if it got past consuming, the sessions are revoked exactly if it got past revoking, the password is new exactly if it got past updating |
| PasswordReset.StoppedStays | packages/auth/src/server/password-reset.ts:178-236 | and so it stays in every later run |
| ResetCapability.RedeemableExactly | packages/auth/src/server/password-reset.ts:156-222 | from its issue on a capability can be redeemed if and only if it has not expired, been replaced, revoked or consumed, whatever else is interleaved |
| ResetOutcome.RefusedAtOnce | packages/auth/src/server/password-reset.ts:178-192 | a redemption beyond its budget or with a malformed token touches nothing, then or ever, and reports which |
| ResetOutcome.RefusedOnReading | packages/auth/src/server/password-reset.ts:194-213 | one whose capability is not live or whose new password the policy refuses touches nothing either: every live capability stays redeemable |
| ResetOutcome.UpdatesToTheNewPassword | packages/auth/src/server/password-reset.ts:215-228 | however it is interleaved, a redemption updates the password to the hash it made of the new one |
| ResetOutcome.RejectedIsOver | packages/auth/src/server/password-reset.ts:178-236 | a redemption that something rejected stands for good where it stood |
| PasswordChange.OneChangePerVersion | packages/auth/src/testing/index.ts:298-314 | however changes, resets and sign-ins interleave, each version of a subject's password is replaced by at most one change |
| PasswordChange.SwapWinsExactly | packages/auth/src/server/credentials.ts:349-365 | a change comes through if and only if nothing else replaced the hash since the current password was verified against it |
| PasswordChange.ChangeLeavesExactly | packages/auth/src/server/credentials.ts:350-365 | whether the swap is won or lost, the subject's sessions left are exactly those opened between the revocation and the swap and not revoked again |
| PasswordChange.LosingRevokesAnyway | packages/auth/src/server/credentials.ts:350-365 | a change can lose to a reset and have ended every session of the subject |
| PasswordHasher.PowerTestExactly | packages/auth/src/server/password-hasher.ts:119-120 | on every integer a double holds, rounding of the subtraction included: up to 2^53 the test accepts exactly when the low 32 bits are zero or a power of two, above exactly when they are zero or, below 2^54, two |
| PasswordHasher.PowerTestIsWrongBeyond32Bits | packages/auth/src/server/password-hasher.ts:119-120 | a number above 32 bits that passes and is no power of two |
| PasswordHasher.AcceptedCostsAreTruePowers | packages/auth/src/server/password-hasher.ts:123-163 | every accepted cost is a power of two from 2 to 2^23, the ceiling excluding the range where the test is wrong |
| PasswordHasher.AcceptedIsAffordable | packages/auth/src/server/password-hasher.ts:95-101 | what scrypt agrees to derive with the memory it is given here is within the parser's ceiling, although it is given more |
| PasswordHasher.PrintedHashIsReadBack | packages/auth/src/server/password-hasher.ts:123-186 | every hash the service prints parses back to the parameters, salt and key that went into it |
| PasswordHasher.OwnHashesVerify | packages/auth/src/server/password-hasher.ts:174-218 | every hash the service prints verifies its own password, and others exactly when they derive the same key, and is not due for rehashing |
| PasswordHasher.DueExactly | packages/auth/src/server/password-hasher.ts:188-219 | a stored hash is due for rehashing exactly when one of its parameters has been raised since or it cannot be read, and an unreadable one verifies no password |
| PasswordHasher.AcceptedIsCanonical | packages/auth/src/server/password-hasher.ts:123-163 | text that is accepted is exactly its three numerals and the encodings of the salt and key it is read as, neither of them empty |
| SignalWalk.ContainsSignalAccess | packages/compiler/src/utils/ast.ts:63-112 | on every finite graph, shared and cyclic children included, the visited-set walk ends and answers exactly whether a signal access is reachable through non-JSX nodes |
| SignalWalk.Walker.Contains | packages/compiler/src/utils/ast.ts:63-112 | the recursive visit with its in-place visited set: what it found, what it visited, and that everything visited is settled |
| TreeWalk.WalkAgrees | packages/compiler/src/utils/ast.ts:63-112 | the walk over the nodes of a syntax tree answers exactly what plain recursion over the tree does |
| JsxTransform.Transformer.Visit | packages/compiler/src/transformer/index.ts:85-148 | the traversal with its in-place counters computes the transform and counts |
| JsxTransform.TransformKeepsSignals | packages/compiler/src/transformer/index.ts:114-133 | wrapping changes neither the kind of a node nor whether a signal is found in it |
| JsxTransform.DecisionsIndependent | packages/compiler/src/transformer/index.ts:114-133 | wrapping inside nested JSX never changes the decision of an enclosing container |
| JsxTransform.SecondPassNeutral | packages/compiler/src/transformer/index.ts:95-142 | a second pass, directly or after printing and parsing, changes nothing and wraps nothing |
| JsxTransform.EraseUndoesTransform | packages/compiler/src/transformer/index.ts:133-139 | removing the inserted arrows gives the source tree back, and their number is what the counters say |
| JsxTransform.EveryContainerCounted | packages/compiler/src/transformer/index.ts:96-141 | wrapped expressions, wrapped props and skipped ones add up to the non-empty containers |
| WrapPlacement.WrappedExactly | packages/compiler/src/transformer/index.ts:95-142 | at every container of a source file the result holds an inserted arrow if and only if wrapping is on for that place, the expression reaches a signal, the attribute is no event handler, and the expression is no function, assignment or update; the arrow takes no arguments and holds the expression |
| WrapPlacement.CountersTellArrowsApart | packages/compiler/src/transformer/index.ts:134-141 | one counter is the number of inserted arrows in attributes, the other that of all the rest |
| SourceCache.SourceCacheImpl.Lookup | packages/compiler/src/services/source-cache.ts:27-45 | value and whole new cache: a hit needs the same hash within the lifetime and moves the key to the end |
| SourceCache.SourceCacheImpl.Store | packages/compiler/src/services/source-cache.ts:47-65 | whole new cache: a known key keeps its place, a new one goes last, then the eviction loop |
| SourceCache.StoreIsBoundedExactly | packages/compiler/src/services/source-cache.ts:57-64 | the cache stays within its bound if and only if no empty key is at the front of a full cache; exactly the front key is dropped for a new one |
| SourceCache.RewrittenIsEvictedReadIsNot | packages/compiler/src/services/source-cache.ts:40-64 | in a full cache the front key is the next to go even if just rewritten, and is not if just read |
| CacheLifetime.LookupExactly | packages/compiler/src/services/source-cache.ts:27-78 | over any history a lookup gives exactly the value last stored under the key and not taken back, with that hash and within its lifetime, which reading does not extend, unless the key was evicted |
| CacheLifetime.NothingEvicted | packages/compiler/src/services/source-cache.ts:47-78 | and nothing is evicted as long as no more keys were stored than the cache holds |
| ContentHash.ComputeHash | packages/compiler/src/utils/hash.ts:25-31 | the hash loop against its specification |
| ContentHash.HashIs32Bits | packages/compiler/src/utils/hash.ts:25-31 | the hash is below 2^32 for every text |
| ContentHash.SameHashExactly | packages/compiler/src/utils/hash.ts:25-32 | two texts get the same printed hash if and only if their 32 bits agree |
| ContentHash.CollisionsExtend | packages/compiler/src/utils/hash.ts:25-31 | a collision survives any common suffix |
| ContentHash.WordsCollide | packages/compiler/src/utils/hash.ts:25-32 | two plain words that collide, and with them all texts that go on alike after them |
| CachedTransform.TransformFile | packages/compiler/src/transformer/index.ts:152-210 | result and cache of one compilation against its specification |
| CachedTransform.TransparentExactly | packages/compiler/src/transformer/index.ts:158-201 | over all runs of compilations of some inputs, invalidations and clears, the results with the cache are those without it if and only if any two inputs with the same file name and content hash compile alike |
| CachedTransform.OnlyCollisionsConfuse | packages/compiler/src/transformer/index.ts:161-170 | different inputs of a file share a content hash only through a collision of the hash, on the settings or on the whole text |
| CachedTransform.WordsAreConfused | packages/compiler/src/transformer/index.ts:160-176 | under any file name and settings there are two sources of which the second, compiled after the first, gets the first one's result |
| KeyedList.ForList.GetChildren | packages/core/src/components/For.ts:160-225 | children, new cache and callbacks of one render against its specification |
| KeyedList.ForList.CollectByKey | packages/core/src/components/For.ts:174-181 | the old children by key, a later one winning |
| KeyedList.ForList.InvokeExits | packages/core/src/components/For.ts:125-141 | exit callbacks fire for the old children whose key was not seen, in order |
| KeyedListTheorems.RendersExactly | packages/core/src/components/For.ts:183-195 | outside production a non-empty list renders if and only if its keys are distinct |
| KeyedListTheorems.ShownExactly | packages/core/src/components/For.ts:69-88 | a valid range shows exactly the items at its positions, no range or an invalid one all of them |
| KeyedListTheorems.RenderedChildren | packages/core/src/components/For.ts:160-225 | position by position the item's key, value and index; nodes pairwise distinct; every retained key keeps its node; the cache stays good |
| KeyedListTheorems.CallbacksExactly | packages/core/src/components/For.ts:183-225 | outside production enter, move and exit fire exactly for new keys, kept keys whose index changed, and vanished keys, in that order |
| KeyedListTheorems.ProductionCallbacksExactly | packages/core/src/components/For.ts:190-195 | in production the callbacks are the right ones if and only if no child is kept, because seen keys are not recorded there |
| KeyedListTheorems.EmptiedCallbacksExactly | packages/core/src/components/For.ts:166-169 | an emptied list fires no callback in either mode, which is right if and only if it held no child |
| KeyedListTheorems.StoppedRenderIsHarmless | packages/core/src/components/For.ts:166-195 | an emptied list and a repeated key leave the cache good, with no children or with the old ones |
| KeyedListTheorems.GoodAfterAnyHistory | packages/core/src/components/For.ts:160-225 | the cache is good after any history of lists; in production of lists whose keys come once |
| WatchEffect.Effect.RunOnce | packages/core/src/effects/effect.ts:82-135 | one run of the callback: cleanups, subscriptions, generation and scheduling flags after it, for every way it can end |
| WatchEffect.Effect.StopEffect | packages/core/src/effects/effect.ts:209-223 | whole state after a stop |
| WatchEffect.Effect.Debounced | packages/core/src/effects/effect.ts:162-184 | whole state after a debounced trigger |
| WatchEffect.Effect.Trigger | packages/core/src/effects/effect.ts:186-202 | whole state after a trigger in every mode |
| WatchEffect.Effect.MicrotaskDue | packages/core/src/effects/effect.ts:196-198 | whole state after a queued microtask |
| WatchEffect.RunBalanced | packages/core/src/effects/effect.ts:68-135 | over any run every registered cleanup has run once or is still waiting once, and a stopped effect holds nothing |
| WatchEffect.StopLeavesTimerExactly | packages/core/src/effects/effect.ts:162-184 | of all events that stop an effect exactly those leave a timer whose leading run, with none pending, stops the effect from inside and does not throw |
| WatchEffect.StopSettlesEverything | packages/core/src/effects/effect.ts:68-223 | after a stop, from outside or inside, each cleanup, late ones included, has run exactly as often as registered; nothing runs again; no subscription is left, nor a timer except in that one case, and then only until it fires |
| WatchEffect.BurstAccounting | packages/core/src/effects/effect.ts:162-184 | a burst of n triggers runs once at the leading edge if asked, and once exactly one wait after the last trigger if trailing and not already covered |
| EffectRuns.SyncTriggerRuns | packages/core/src/effects/effect.ts:186-202 | without debounce and post flush, after any history, a trigger of an awake effect adds exactly one run at its instant and leaves exactly the dependencies and cleanups of that run |
| EffectRuns.SyncAccounting | packages/core/src/effects/effect.ts:186-231 | over whole histories the runs are exactly those triggered or resumed while neither stopped nor paused, and the dependencies of the latest are subscribed |
| EffectRuns.PostAccounting | packages/core/src/effects/effect.ts:194-199 | with post flush a batch of triggers adds exactly one run, when the microtask comes, however many triggers and further microtasks there are |
| EffectRuns.ResumingBeforeTheMicrotask | packages/core/src/effects/effect.ts:194-230 | resuming calls back no microtask: with one pending it runs again, and once more for a trigger in between |
| EffectRuns.ResumingRuns | packages/core/src/effects/effect.ts:227-230 | in every mode resuming runs the callback exactly once |
| EffectRuns.PausedRunsNothing | packages/core/src/effects/effect.ts:82-83 | in every mode nothing runs a paused effect but resuming it |
| EffectRuns.PausedTriggersAreLost | packages/core/src/effects/effect.ts:186-187 | triggers while paused leave nothing to run later |
| EffectRuns.PausingFromInside | packages/core/src/effects/effect.ts:224-226 | a run leaves the effect paused exactly if the callback paused it |
| EffectRuns.ThrowingRun | packages/core/src/effects/effect.ts:113-123 | a run that throws keeps nothing: its cleanups have run and nothing is subscribed |
| EffectRuns.LateCleanupExactly | packages/core/src/effects/effect.ts:86-92 | a cleanup registered late waits exactly if its run is still the latest and the effect active, and otherwise runs on the spot |
| LocaleRace.I18nInstance.SetLocale | packages/i18n/src/i18n.ts:155-160 | the synchronous part of a call: its number, and committed at once, joined to a pending load, or started a new one |
| LocaleRace.I18nInstance.Resume | packages/i18n/src/i18n.ts:162-166 | the rest of a call commits only if its number is still the newest |
| LocaleRace.CommitsInCallOrder | packages/i18n/src/i18n.ts:155-175 | over all interleavings commits have increasing call numbers, only to locales with translations present, and the last is the current locale |
| LocaleRace.NewestCallWins | packages/i18n/src/i18n.ts:155-175 | once the newest call has succeeded the locale is its own |
| LocaleRace.NewestCallCommits | packages/i18n/src/i18n.ts:155-175 | a newest call whose load succeeded does commit |
| LocaleRace.SupersededNeverCommits | packages/i18n/src/i18n.ts:155-175 | a call overtaken before it committed never does, in any continuation, and every commit from then on is of a newer call |
| LocaleRace.OneLoadPerLocale | packages/i18n/src/i18n.ts:206-244 | at most one load per locale is in flight |
| LocaleRace.CallsLoadExactly | packages/i18n/src/i18n.ts:206-244 | a call for a locale without translations joins the load in flight if there is one and starts its own exactly if there is none, so a failed load is retried by the next call |
| LocaleRace.TextsMove | packages/i18n/src/i18n.ts:195-232 | a load that arrives replaces the dictionary of its locale, additions go before what is there, and no other step changes a text |
| PluginHost.PluginHostImpl.TeardownAll | packages/server/src/plugins.ts:112-131 | trace, failures and emptied host of a teardown, failing finalizers included |
| PluginHost.PluginHostImpl.StartAll | packages/server/src/plugins.ts:148-176 | host, trace and success of a start, with rollback at the first failing setup |
| PluginHost.PluginHostImpl.StopAll | packages/server/src/plugins.ts:178-206 | host, trace and collected failures of a stop that does not time out |
| PluginHost.TracesAreBracketed | packages/server/src/plugins.ts:112-206 | over any sequence of use, start and stop whatever is torn down is the latest thing still open, so finalizers run in exact reverse and each exactly once; a host that is not running holds nothing |
| PluginHost.BootInOrder | packages/server/src/plugins.ts:151-176 | setups follow registration order; the plugins started are all of them if none fails, and otherwise exactly those up to the first that fails, that one included |
| PluginHost.FailedBootLeavesNothing | packages/server/src/plugins.ts:167-174 | a failed boot leaves an empty host which a later start brings up |
| PluginHost.AllFailuresCollected | packages/server/src/plugins.ts:112-131 | the failures reported are all those in the trace, in order |
| PluginHost.ReportsAreTrue | packages/server/src/plugins.ts:134-206 | use accepts exactly a name that is then registered, start succeeds exactly if the host is then running, and a stop reports exactly the errors of its trace |
| PluginHost.UsedPluginsAreServed | packages/server/src/plugins.ts:134-176 | names used before a start are registered once each, in order; a started host holds each plugin's own finalizers and serves each name the value its own setup returned |

## Left out

- StoreRefinement.StorageStoreRefinesReference: leaves out the number that ending all sessions returns, because the two stores really do differ in it; by how much is SessionCounts.EndedAreCounted.
- SessionTheorems.RotatedAwayIdsDie: counts one overlap per generation, because rotating an old token again inside its window opens the successor's window anew; no unique tip of a chain is claimed, as there can be two.
- CookieTransport.ClearThenWriteReadsBack: restricts cookie names to letters, digits, `.`, `-` and `_`, because other characters would be read as a pattern (packages/auth/src/server/cookies.ts:228-234); header attributes are a record rather than text.
- AuthServer.AuthServerImpl.constructor: takes a valid configuration, with storage for the stateful strategy, where the code throws a configuration error.
- Lockout.LockoutBoundsGuessing: is about sequential calls; two sign-ins interleaved inside their hash checks can both be judged against the same count.
- PasswordReset.RedemptionLeavesExactly: takes sessions as a set that sign-ins add to and a revocation empties; expiry and rotation are the subject of SessionTheorems.
- LocaleRace.TextsMove: takes dictionaries as flat, where the code merges nested ones key by key.
- BrowserSessions.StaysSignedInExactly: looks no further than the life of the first cookie, because in the stateful strategy reads do not renew it.
- EffectRuns.SyncAccounting: is for callbacks that return and leave their own effect alone; one trigger after any history is EffectRuns.SyncTriggerRuns.
- KeyedListTheorems.GoodAfterAnyHistory: leaves out production renders with repeated keys, where one node is placed twice.
- PasswordChange.ChangeLeavesExactly: begins once the current password is verified; the budgets, the lock and the policy before that are in Credentials.
- WatchEffect.BurstAccounting: is for bodies that return and leave their effect alone; callbacks that trigger their own effect while running are not modelled.
- PluginHost.PluginHostImpl.StopAll: does not model the timeout, nor finalizers registered after their setup has returned.
- JsxTransform.Transformer.Visit: rebuilds the tree where the compiler overwrites nodes in place, so aliasing between syntax nodes is not captured.
- CachedTransform.TransparentExactly: compares results apart from the `cached` flag, which differs by design; parsing, transforming and printing are one function there.
- PasswordHasher.OwnHashesVerify: takes scrypt's refusals as laws, as scrypt itself is not part of this model.
- A browser's own limits on lifetimes and on the number and size of its cookies.
- The storage-backed lock, which excludes only if each call is atomic, as its own comment says.
- Records of the wrong form in a backend, and writes torn between record and index.
- Key prefixes of storage namespaces: two namespaces are two maps.
- The recurring-job scheduler (packages/server/src/tasks.ts): per job an in-flight flag and a timer, with no property that goes beyond reading it.
- HMAC, scrypt, SHA-256, randomness, JSON, the OAuth and CSRF modules: library calls or thin wrappers of them.
- Parsing and printing JavaScript, source maps, the Vite plugins and the command line.
- The DOM, portals, transitions, hot reloading and the dependency graph behind subscriptions, which are an abstract list here.
- Locale detection, persistence and interpolation; async effect callbacks' fibers.
