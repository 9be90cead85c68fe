/**
 * Which password signs in: the conditions a sign-in and a password change are decided by,
 * what they leave behind, and over whole runs that only the password last set opens the door.
 */
module SignInRules {
  import opened Wrappers
  import opened Credentials
  import opened Lockout
  import RL = RateLimiter
  import SS = SessionStore

  /** The budget has an attempt left: its window is over, or has seen fewer than the limit. */
  predicate Affords(cfg: Config, b: RL.Buckets, scope: string, key: string, now: int) {
    var id := RL.BucketId(scope, key);
    && 0 < cfg.limits.limit
    && (id in b && now - b[id].windowStartedAt < cfg.limits.windowMs ==> b[id].count < cfg.limits.limit)
  }

  predicate SignInAffordable(cfg: Config, b: RL.Buckets, identifier: string, ip: string, now: int) {
    Affords(cfg, b, SCOPE_IDENTIFIER, cfg.normalise(identifier), now) && Affords(cfg, b, SCOPE_IP, ip, now)
  }

  predicate ChangeAffordable(cfg: Config, b: RL.Buckets, subject: string, ip: string, now: int) {
    Affords(cfg, b, SCOPE_CHANGE_SUBJECT, subject, now) && Affords(cfg, b, SCOPE_CHANGE_IP, ip, now)
  }

  /** The identifier, trimmed and in lower case, is filed for the subject. */
  predicate Names(cfg: Config, u: Users, identifier: string, subject: string) {
    var key := cfg.lower(cfg.normalise(identifier));
    key in u.byIdentifier && u.byIdentifier[key] == subject && subject in u.bySubject
  }

  /** The subject is known and no lock holds at this instant. */
  predicate Open(u: Users, subject: string, now: int) {
    subject in u.bySubject &&
    (u.bySubject[subject].lockedUntil.Some? ==> u.bySubject[subject].lockedUntil.value <= now)
  }

  predicate Matches(cfg: Config, u: Users, subject: string, password: string) {
    subject in u.bySubject && cfg.verify(password, u.bySubject[subject].passwordHash)
  }

  /** The record of `subject`, wherever it is filed, becomes `r` and no other record changes. */
  ghost predicate OnlyBecomes(u: Users, v: Users, subject: string, r: CredentialRecord) {
    && subject in v.bySubject && v.bySubject[subject] == r
    && (forall s :: s != subject ==> (s in v.bySubject <==> s in u.bySubject))
    && (forall s :: s != subject && s in u.bySubject ==> v.bySubject[s] == u.bySubject[s])
  }

  lemma {:induction false} SpendingBoth(cfg: Config, b: RL.Buckets, i: nat, keyA: string, j: nat, keyB: string,
                                        now: int)
    requires i < j < |RL.SERVICE_SCOPES|
    ensures var a, c := RL.SERVICE_SCOPES[i], RL.SERVICE_SCOPES[j];
            var (limited, b') := SpendBoth(cfg, b, a, keyA, c, keyB, now);
            && (limited.None? <==> Affords(cfg, b, a, keyA, now) && Affords(cfg, b, c, keyB, now))
            && (limited.Some? ==> limited.value.RateLimited?
                                  && limited.value.scope == if Affords(cfg, b, a, keyA, now) then c else a)
  {
    RL.ScopesApart(i, j, keyA, keyB);
  }

  /** What both budgets hold after a call, and that no other budget moves. */
  ghost predicate Spent(cfg: Config, b: RL.Buckets, b': RL.Buckets, first: string, second: string, now: int,
                        refunded: bool)
  {
    forall id ::
      if id == first && refunded then id !in b'
      else if id == first || id == second then
        id in b' && b'[id] == (if id in b && now - b[id].windowStartedAt < cfg.limits.windowMs
                               then b[id].(count := b[id].count + 1) else RL.Bucket(1, now))
      else (id in b' <==> id in b) && (id in b' ==> b'[id] == b[id])
  }

  lemma {:induction false} SpendsOnce(cfg: Config, b: RL.Buckets, i: nat, keyA: string, j: nat, keyB: string, now: int)
    requires i < j < |RL.SERVICE_SCOPES|
    ensures var a, c := RL.SERVICE_SCOPES[i], RL.SERVICE_SCOPES[j];
            var first, second := RL.BucketId(a, keyA), RL.BucketId(c, keyB);
            var b' := SpendBoth(cfg, b, a, keyA, c, keyB, now).1;
            && Spent(cfg, b, b', first, second, now, false)
            && Spent(cfg, b, b' - {first}, first, second, now, true)
  {
    RL.ScopesApart(i, j, keyA, keyB);
  }

  /**
   * A sign-in returns a subject exactly when both budgets afford it, the identifier names the
   * subject, no lock holds, and the password matches the stored hash. It counts as a failure
   * of the subject exactly when the password does not match and all the rest holds.
   */
  lemma {:induction false} SignsInExactly(cfg: Config, st: State, identifier: string, password: string, ip: string,
                                          newHash: string, now: int, subject: string)
    requires Filed(st.users)
    ensures var r := Authenticate(cfg, st, identifier, password, ip, newHash, now).0;
            var affordable := SignInAffordable(cfg, st.buckets, identifier, ip, now);
            var checked := affordable && Names(cfg, st.users, identifier, subject) && Open(st.users, subject, now);
            && (r == SignedIn(subject) <==> checked && Matches(cfg, st.users, subject, password))
            && (r.Refused? && r.mismatch == Some(subject) <==>
                  checked && !Matches(cfg, st.users, subject, password))
            && (r.Refused? && r.error.RateLimited? <==> !affordable)
            && (Names(cfg, st.users, identifier, subject) && r.Refused? ==>
                  (r.error.AccountLocked? <==> affordable && !Open(st.users, subject, now)))
            && (r.SignedIn? || r.Refused?)
            && (r.Refused? && affordable && !r.error.AccountLocked? ==> r.error == InvalidCredentials)
  {
    SpendingBoth(cfg, st.buckets, 0, cfg.normalise(identifier), 1, ip, now);
    hide SpendBoth, Affords;
  }

  /** The record of a subject after a wrong password: one more failure, and a lock from the threshold on. */
  function Failed(cfg: Config, r: CredentialRecord, now: int): CredentialRecord {
    r.(failedAttempts := r.failedAttempts + 1,
       lockedUntil := if r.failedAttempts + 1 >= cfg.lockoutThreshold then Some(now + cfg.lockoutDurationMs)
                      else r.lockedUntil)
  }

  lemma FailingBecomes(cfg: Config, u: Users, subject: string, now: int)
    requires Filed(u) && subject in u.bySubject
    ensures OnlyBecomes(u, Fail(cfg, u, u.bySubject[subject], now), subject, Failed(cfg, u.bySubject[subject], now))
  {
  }

  lemma ClearingBecomes(cfg: Config, u: Users, subject: string, hash: string)
    requires Filed(u) && subject in u.bySubject
    ensures var cleared := ClearFailedAttempts(cfg, u, subject);
            var r := u.bySubject[subject].(lockedUntil := None, failedAttempts := 0);
            && OnlyBecomes(u, cleared, subject, r)
            && OnlyBecomes(u, UpdatePasswordHash(cfg, cleared, subject, hash), subject, r.(passwordHash := hash))
  {
  }

  lemma SwappingBecomes(cfg: Config, u: Users, subject: string, hash: string)
    requires Filed(u) && subject in u.bySubject
    ensures var r := u.bySubject[subject];
            var (swapped, v) := ReplacePasswordHash(cfg, u, subject, r.passwordHash, hash);
            swapped && OnlyBecomes(u, v, subject, r.(passwordHash := hash, lockedUntil := None, failedAttempts := 0))
  {
  }

  /** A sign-in clears the subject's failures and upgrades an outdated hash; nothing else changes. */
  lemma {:induction false} SigningInLeaves(cfg: Config, st: State, identifier: string, password: string, ip: string,
                                           newHash: string, now: int)
    requires Filed(st.users)
    ensures var (r, st') := Authenticate(cfg, st, identifier, password, ip, newHash, now);
            && st'.sessions == st.sessions
            && (r.SignedIn? ==>
                  && r.subject in st.users.bySubject
                  && var known := st.users.bySubject[r.subject];
                     OnlyBecomes(st.users, st'.users, r.subject,
                                 known.(passwordHash := if cfg.needsRehash(known.passwordHash) then newHash
                                                        else known.passwordHash,
                                        lockedUntil := None, failedAttempts := 0)))
            && (r.Refused? && r.mismatch.Some? ==>
                  && r.mismatch.value in st.users.bySubject
                  && OnlyBecomes(st.users, st'.users, r.mismatch.value,
                                 Failed(cfg, st.users.bySubject[r.mismatch.value], now)))
            && (r.Refused? && r.mismatch.None? ==> st'.users == st.users)
  {
    var found := FindByIdentifier(cfg, st.users, cfg.normalise(identifier));
    if found.Some? {
      FailingBecomes(cfg, st.users, found.value.subject, now);
      ClearingBecomes(cfg, st.users, found.value.subject, newHash);
    }
    hide SpendBoth, OnlyBecomes, Fail, Failed, ClearFailedAttempts, UpdatePasswordHash;
  }

  /** Every sign-in spends both budgets, and a successful one refunds the identifier's. */
  lemma {:induction false} SigningInSpends(cfg: Config, st: State, identifier: string, password: string, ip: string,
                                           newHash: string, now: int)
    ensures var (r, st') := Authenticate(cfg, st, identifier, password, ip, newHash, now);
            Spent(cfg, st.buckets, st'.buckets, RL.BucketId(SCOPE_IDENTIFIER, cfg.normalise(identifier)),
                  RL.BucketId(SCOPE_IP, ip), now, r.SignedIn?)
  {
    SpendsOnce(cfg, st.buckets, 0, cfg.normalise(identifier), 1, ip, now);
    hide SpendBoth, Spent, Fail, ClearFailedAttempts, UpdatePasswordHash;
  }

  /**
   * A password change succeeds exactly when both budgets afford it, the subject is known and
   * not locked, the current password matches, and the next one is acceptable and different.
   */
  lemma {:induction false} ChangesExactly(cfg: Config, st: State, subject: string, current: string, next: string,
                                          ip: string, newHash: string, now: int, other: string)
    requires Filed(st.users)
    ensures var r := ChangePassword(cfg, st, subject, current, next, ip, newHash, now).0;
            var affordable := ChangeAffordable(cfg, st.buckets, subject, ip, now);
            var checked := affordable && Open(st.users, subject, now);
            && (r.Changed? <==> checked && Matches(cfg, st.users, subject, current)
                                && cfg.policy(next).None? && next != current)
            && (r.Refused? && r.mismatch == Some(other) <==>
                  other == subject && checked && !Matches(cfg, st.users, subject, current))
            && (r.Refused? && r.error.RateLimited? <==> !affordable)
            && (r.Refused? && r.error.AccountLocked? <==>
                  affordable && subject in st.users.bySubject && !Open(st.users, subject, now))
            && (r.Changed? || r.Refused?)
            && (affordable && !r.Changed? && (Open(st.users, subject, now) || subject !in st.users.bySubject) ==>
                  r.error == if !Matches(cfg, st.users, subject, current) then InvalidCredentials
                             else PasswordPolicy(cfg.policy(next).GetOr(SAME_PASSWORD)))
  {
    SpendingBoth(cfg, st.buckets, 2, subject, 3, ip, now);
    hide SpendBoth, Affords;
  }

  function SessionsOf(b: SS.Backend, subject: string): set<string>
    requires b.Reference?
  {
    set id | id in b.records && b.records[id].subject == subject
  }

  lemma RevokingEnds(b: SS.Backend, subject: string)
    requires b.Reference?
    ensures var (b', count) := SS.DestroyForSubject(b, subject);
            && count == |SessionsOf(b, subject)|
            && forall id :: SS.Read(b', id) == if id in SessionsOf(b, subject) then None else SS.Read(b, id)
  {
    assert SS.OwnedBy(b.records, subject) == SessionsOf(b, subject);
  }

  /** A change stores the new hash, clears the failures and ends every session of the subject. */
  lemma {:induction false} ChangingLeaves(cfg: Config, st: State, subject: string, current: string, next: string,
                                          ip: string, newHash: string, now: int)
    requires Filed(st.users)
    ensures var (r, st') := ChangePassword(cfg, st, subject, current, next, ip, newHash, now);
            && (r.Changed? ==>
                  && subject in st.users.bySubject
                  && OnlyBecomes(st.users, st'.users, subject,
                                 st.users.bySubject[subject].(passwordHash := newHash, lockedUntil := None,
                                                              failedAttempts := 0))
                  && (st.sessions.Reference? ==>
                        && r.revokedSessions == |SessionsOf(st.sessions, subject)|
                        && forall id :: SS.Read(st'.sessions, id) ==
                                        if id in SessionsOf(st.sessions, subject) then None
                                        else SS.Read(st.sessions, id)))
            && (!r.Changed? ==> st'.sessions == st.sessions)
            && (r.Refused? && r.mismatch.Some? ==>
                  && r.mismatch.value in st.users.bySubject
                  && OnlyBecomes(st.users, st'.users, r.mismatch.value,
                                 Failed(cfg, st.users.bySubject[r.mismatch.value], now)))
            && (r.Refused? && r.mismatch.None? ==> st'.users == st.users)
  {
    if st.sessions.Reference? {
      RevokingEnds(st.sessions, subject);
    }
    if subject in st.users.bySubject {
      FailingBecomes(cfg, st.users, subject, now);
      SwappingBecomes(cfg, st.users, subject, newHash);
    }
    hide SpendBoth, OnlyBecomes, Fail, Failed, ReplacePasswordHash, SS.DestroyForSubject, SS.Read;
  }

  /** Every change spends both budgets. */
  lemma {:induction false} ChangingSpends(cfg: Config, st: State, subject: string, current: string, next: string,
                                          ip: string, newHash: string, now: int)
    ensures var st' := ChangePassword(cfg, st, subject, current, next, ip, newHash, now).1;
            Spent(cfg, st.buckets, st'.buckets, RL.BucketId(SCOPE_CHANGE_SUBJECT, subject),
                  RL.BucketId(SCOPE_CHANGE_IP, ip), now, false)
  {
    SpendsOnce(cfg, st.buckets, 2, subject, 3, ip, now);
    hide SpendBoth, Spent, Fail, ReplacePasswordHash, SS.DestroyForSubject;
  }

  // ---------------------------------------------------------------------------------------
  // What a refusal says

  lemma {:induction false} WaitIsExact(cfg: Config, b: RL.Buckets, i: nat, keyA: string, j: nat, keyB: string, now: int,
                                       wait: nat)
    requires i < j < |RL.SERVICE_SCOPES| && 0 < cfg.limits.windowMs
    requires forall id :: id in b ==> b[id].windowStartedAt <= now
    ensures var a, c := RL.SERVICE_SCOPES[i], RL.SERVICE_SCOPES[j];
            var (limited, b') := SpendBoth(cfg, b, a, keyA, c, keyB, now);
            limited.Some? && limited.value.RateLimited? ==>
              (Affords(cfg, b', limited.value.scope, if limited.value.scope == a then keyA else keyB, now + wait) <==>
                 limited.value.retryAfterMs <= wait && 0 < cfg.limits.limit)
  {
    RL.ScopesApart(i, j, keyA, keyB);
  }

  /**
   * The wait a refused sign-in is told is exact. Of an exhausted budget: it affords an attempt
   * from then on and not before, if it ever does. Of a lock: it is open from then on and not
   * before.
   */
  lemma {:induction false} SignInRefusalTellsTheWait(cfg: Config, st: State, identifier: string, password: string,
                                                     ip: string, newHash: string, now: int, subject: string, wait: nat)
    requires Filed(st.users) && 0 < cfg.limits.windowMs
    requires forall id :: id in st.buckets ==> st.buckets[id].windowStartedAt <= now
    ensures var (r, st') := Authenticate(cfg, st, identifier, password, ip, newHash, now);
            && (r.Refused? && r.error.RateLimited? ==>
                  var byName := r.error.scope == SCOPE_IDENTIFIER;
                  && (byName || r.error.scope == SCOPE_IP)
                  && (Affords(cfg, st'.buckets, r.error.scope, if byName then cfg.normalise(identifier) else ip,
                              now + wait)
                      <==> r.error.retryAfterMs <= wait && 0 < cfg.limits.limit))
            && (r.Refused? && r.error.AccountLocked? && Names(cfg, st.users, identifier, subject) ==>
                  (Open(st'.users, subject, now + wait) <==> r.error.retryMs <= wait))
  {
    SpendingBoth(cfg, st.buckets, 0, cfg.normalise(identifier), 1, ip, now);
    WaitIsExact(cfg, st.buckets, 0, cfg.normalise(identifier), 1, ip, now, wait);
    hide SpendBoth, Affords, Fail, ClearFailedAttempts, UpdatePasswordHash;
  }

  /** The same for a password change. */
  lemma {:induction false} ChangeRefusalTellsTheWait(cfg: Config, st: State, subject: string, current: string,
                                                     next: string, ip: string, newHash: string, now: int, wait: nat)
    requires Filed(st.users) && 0 < cfg.limits.windowMs
    requires forall id :: id in st.buckets ==> st.buckets[id].windowStartedAt <= now
    ensures var (r, st') := ChangePassword(cfg, st, subject, current, next, ip, newHash, now);
            && (r.Refused? && r.error.RateLimited? ==>
                  var bySubject := r.error.scope == SCOPE_CHANGE_SUBJECT;
                  && (bySubject || r.error.scope == SCOPE_CHANGE_IP)
                  && (Affords(cfg, st'.buckets, r.error.scope, if bySubject then subject else ip, now + wait)
                      <==> r.error.retryAfterMs <= wait && 0 < cfg.limits.limit))
            && (r.Refused? && r.error.AccountLocked? ==>
                  (Open(st'.users, subject, now + wait) <==> r.error.retryMs <= wait))
  {
    SpendingBoth(cfg, st.buckets, 2, subject, 3, ip, now);
    WaitIsExact(cfg, st.buckets, 2, subject, 3, ip, now, wait);
    hide SpendBoth, Affords, Fail, ReplacePasswordHash, SS.DestroyForSubject;
  }

  // ---------------------------------------------------------------------------------------
  // Which names sign in

  /** A user who is added signs in under any spelling of the identifier that differs in case only. */
  lemma SeededIsNamed(cfg: Config, u: Users, r: CredentialRecord, identifier: string)
    requires cfg.lower(cfg.normalise(identifier)) == cfg.lower(r.identifier)
    ensures var u' := Put(cfg, u, r);
            Names(cfg, u', identifier, r.subject) && u'.bySubject[r.subject] == r
    ensures forall other, s :: Names(cfg, u, other, s) && cfg.lower(cfg.normalise(other)) != cfg.lower(r.identifier) ==>
              Names(cfg, Put(cfg, u, r), other, s)
  {
  }

  /** Every record is filed under its own identifier. */
  ghost predicate Indexed(cfg: Config, u: Users) {
    forall s :: s in u.bySubject ==>
      cfg.lower(u.bySubject[s].identifier) in u.byIdentifier
      && u.byIdentifier[cfg.lower(u.bySubject[s].identifier)] == s
  }

  /** The same users under the same identifiers. */
  ghost predicate NamedAlike(cfg: Config, u: Users, v: Users) {
    Filed(v) && Indexed(cfg, v) && v.byIdentifier == u.byIdentifier && v.bySubject.Keys == u.bySubject.Keys
  }

  lemma StoringKeepsNames(cfg: Config, u: Users, s: string, lockedUntil: Option<int>, expected: string, hash: string)
    requires Filed(u) && Indexed(cfg, u)
    ensures NamedAlike(cfg, u, RecordFailedAttempt(cfg, u, s, lockedUntil))
    ensures NamedAlike(cfg, u, ClearFailedAttempts(cfg, u, s))
    ensures NamedAlike(cfg, u, UpdatePasswordHash(cfg, u, s, hash))
    ensures NamedAlike(cfg, u, ReplacePasswordHash(cfg, u, s, expected, hash).1)
    ensures NamedAlike(cfg, u, u)
  {
  }

  lemma UpgradingKeepsNames(cfg: Config, u: Users, s: string, hash: string)
    requires Filed(u) && Indexed(cfg, u)
    ensures NamedAlike(cfg, u, UpdatePasswordHash(cfg, ClearFailedAttempts(cfg, u, s), s, hash))
  {
    StoringKeepsNames(cfg, u, s, None, "", hash);
    StoringKeepsNames(cfg, ClearFailedAttempts(cfg, u, s), s, None, "", hash);
    hide ClearFailedAttempts, UpdatePasswordHash;
  }

  lemma {:induction false} SignInKeepsNames(cfg: Config, st: State, c: Call)
    requires Filed(st.users) && Indexed(cfg, st.users) && c.SignInCall?
    ensures NamedAlike(cfg, st.users, Do(cfg, st, c).1.users)
  {
    hide Filed, Indexed, NamedAlike, SpendBoth, RecordFailedAttempt, ClearFailedAttempts, UpdatePasswordHash;
    StoringKeepsNames(cfg, st.users, "", None, "", "");
    var found := FindByIdentifier(cfg, st.users, cfg.normalise(c.identifier));
    if found.Some? {
      var r := found.value;
      var lock := if r.failedAttempts + 1 >= cfg.lockoutThreshold then Some(c.at + cfg.lockoutDurationMs) else None;
      StoringKeepsNames(cfg, st.users, r.subject, lock, "", c.newHash);
      UpgradingKeepsNames(cfg, st.users, r.subject, c.newHash);
    }
  }

  /** What a change can make of the users. */
  lemma {:induction false} ChangeStores(cfg: Config, st: State, c: Call)
    requires c.ChangeCall?
    ensures var v := Do(cfg, st, c).1.users;
            || v == st.users
            || (c.subject in st.users.bySubject
                && var r := st.users.bySubject[c.subject];
                   || v == Fail(cfg, st.users, r, c.at)
                   || v == ReplacePasswordHash(cfg, st.users, c.subject, r.passwordHash, c.newHash).1)
  {
    hide SpendBoth, Fail, ReplacePasswordHash, SS.DestroyForSubject, Locked;
  }

  lemma {:induction false} ChangeKeepsNames(cfg: Config, st: State, c: Call)
    requires Filed(st.users) && Indexed(cfg, st.users) && c.ChangeCall?
    ensures NamedAlike(cfg, st.users, Do(cfg, st, c).1.users)
  {
    hide Filed, Indexed, NamedAlike, Do, RecordFailedAttempt, ReplacePasswordHash;
    ChangeStores(cfg, st, c);
    StoringKeepsNames(cfg, st.users, "", None, "", "");
    if c.subject in st.users.bySubject {
      var r := st.users.bySubject[c.subject];
      var lock := if r.failedAttempts + 1 >= cfg.lockoutThreshold then Some(c.at + cfg.lockoutDurationMs) else None;
      StoringKeepsNames(cfg, st.users, c.subject, None, r.passwordHash, c.newHash);
      StoringKeepsNames(cfg, st.users, r.subject, lock, "", "");
    }
  }

  /** No call changes who an identifier names. */
  lemma {:induction false} CallsKeepNames(cfg: Config, st: State, c: Call, identifier: string, subject: string)
    requires Filed(st.users) && Indexed(cfg, st.users)
    ensures var st' := Do(cfg, st, c).1;
            && Filed(st'.users) && Indexed(cfg, st'.users)
            && (Names(cfg, st'.users, identifier, subject) <==> Names(cfg, st.users, identifier, subject))
  {
    match c
    case SignInCall(_, _, _, _, _) => SignInKeepsNames(cfg, st, c);
    case ChangeCall(_, _, _, _, _, _) => ChangeKeepsNames(cfg, st, c);
    case ResetCall(s, _, hash, _) => StoringKeepsNames(cfg, st.users, s, None, "", hash);
    hide Authenticate, ChangePassword, UpdatePasswordHash, Indexed;
  }

  // ---------------------------------------------------------------------------------------
  // Over whole runs

  /** The hash is of this password: nothing else verifies against it. */
  ghost predicate Hashes(cfg: Config, hash: string, password: string) {
    forall q :: cfg.verify(q, hash) <==> q == password
  }

  /** The hash a call may store is of the password it sets, or for a sign-in of the one it was given. */
  ghost predicate Honest(cfg: Config, c: Call) {
    match c
    case SignInCall(_, password, _, newHash, _) => Hashes(cfg, newHash, password)
    case ChangeCall(_, _, next, _, newHash, _) => Hashes(cfg, newHash, next)
    case ResetCall(_, next, newHash, _) => Hashes(cfg, newHash, next)
  }

  ghost predicate InForce(cfg: Config, u: Users, subject: string, password: string) {
    subject in u.bySubject && Hashes(cfg, u.bySubject[subject].passwordHash, password)
  }

  /** The password a subject last set by a change that came through or by a reset, `first` if by none. */
  function LastSet(cfg: Config, st: State, calls: seq<Call>, subject: string, first: string): string
    decreases calls
  {
    if calls == [] then first
    else
      var c := calls[0];
      var (r, st') := Do(cfg, st, c);
      LastSet(cfg, st', calls[1..], subject,
              if !c.SignInCall? && r.Changed? && c.subject == subject then c.next else first)
  }

  function DoAll(cfg: Config, st: State, calls: seq<Call>): State
    decreases calls
  {
    if calls == [] then st else DoAll(cfg, Do(cfg, st, calls[0]).1, calls[1..])
  }

  lemma {:induction false} CallKeepsInForce(cfg: Config, st: State, c: Call, subject: string, password: string)
    requires Filed(st.users) && Honest(cfg, c) && InForce(cfg, st.users, subject, password)
    ensures var (r, st') := Do(cfg, st, c);
            Filed(st'.users) &&
            InForce(cfg, st'.users, subject,
                    if !c.SignInCall? && r.Changed? && c.subject == subject then c.next else password)
  {
    CallMovesLock(cfg, st, c, subject);
    hide SpendBoth, Spent, Affords;
    match c
    case SignInCall(identifier, given, ip, newHash, at) =>
      SignsInExactly(cfg, st, identifier, given, ip, newHash, at, subject);
      SigningInLeaves(cfg, st, identifier, given, ip, newHash, at);
      hide Authenticate;
    case ChangeCall(s, current, next, ip, newHash, at) =>
      ChangesExactly(cfg, st, s, current, next, ip, newHash, at, subject);
      ChangingLeaves(cfg, st, s, current, next, ip, newHash, at);
      hide ChangePassword;
    case ResetCall(_, _, _, _) =>
  }

  lemma {:induction false} RunKeepsInForce(cfg: Config, st: State, calls: seq<Call>, subject: string, first: string)
    requires Filed(st.users) && InForce(cfg, st.users, subject, first)
    requires forall i :: 0 <= i < |calls| ==> Honest(cfg, calls[i])
    ensures var st' := DoAll(cfg, st, calls);
            Filed(st'.users) && InForce(cfg, st'.users, subject, LastSet(cfg, st, calls, subject, first))
    decreases calls
  {
    hide Do, InForce, Honest, Filed;
    if calls != [] {
      var c := calls[0];
      var (r, st') := Do(cfg, st, c);
      CallKeepsInForce(cfg, st, c, subject, first);
      RunKeepsInForce(cfg, st', calls[1..], subject,
                      if !c.SignInCall? && r.Changed? && c.subject == subject then c.next else first);
    }
  }

  /**
   * After any run of sign-ins, changes and resets by anyone, upgrades of old hashes included,
   * a subject whose budgets and lock allow it signs in with the password last set and with
   * no other.
   */
  lemma {:induction false} OnlyTheLastPasswordSignsIn(cfg: Config, st: State, calls: seq<Call>, subject: string,
                                                      first: string, identifier: string, password: string,
                                                      ip: string, newHash: string, now: int)
    requires Filed(st.users) && InForce(cfg, st.users, subject, first)
    requires forall i :: 0 <= i < |calls| ==> Honest(cfg, calls[i])
    ensures var end := DoAll(cfg, st, calls);
            Authenticate(cfg, end, identifier, password, ip, newHash, now).0 == SignedIn(subject) <==>
              && SignInAffordable(cfg, end.buckets, identifier, ip, now)
              && Names(cfg, end.users, identifier, subject) && Open(end.users, subject, now)
              && password == LastSet(cfg, st, calls, subject, first)
  {
    RunKeepsInForce(cfg, st, calls, subject, first);
    SignsInExactly(cfg, DoAll(cfg, st, calls), identifier, password, ip, newHash, now, subject);
    hide Authenticate, DoAll, LastSet;
  }
}
