/**
 * Password sign-in and password change: two rate budgets, a lock after repeated failures,
 * and the user store they act on. Hashing is an abstract check; everything else is as coded.
 */
module Credentials {
  import opened Wrappers
  import RL = RateLimiter
  import SS = SessionStore

  datatype CredentialRecord = CredentialRecord(
    subject: string,
    identifier: string,
    passwordHash: string,
    lockedUntil: Option<int>,
    failedAttempts: nat)

  /** The two maps of the user store. */
  datatype Users = Users(bySubject: map<string, CredentialRecord>, byIdentifier: map<string, string>)

  /** The pieces the provider is configured with. */
  datatype Config = Config(
    lower: string -> string,
    normalise: string -> string,
    verify: (string, string) -> bool,
    needsRehash: string -> bool,
    policy: string -> Option<string>,
    lockoutThreshold: nat,
    lockoutDurationMs: nat,
    limits: RL.Options)

  datatype AuthError =
    | RateLimited(retryAfterMs: int, scope: string)
    | InvalidCredentials
    | AccountLocked(retryMs: int)
    | PasswordPolicy(reason: string)

  /** How a call ended; `mismatch` names the subject whose password was checked and found wrong. */
  datatype Outcome =
    | SignedIn(subject: string)
    | Changed(revokedSessions: nat)
    | Refused(error: AuthError, mismatch: Option<string>)

  const SCOPE_IDENTIFIER := "credentials:identifier"
  const SCOPE_IP := "credentials:ip"
  const SCOPE_CHANGE_SUBJECT := "credentials:change:subject"
  const SCOPE_CHANGE_IP := "credentials:change:ip"
  const SAME_PASSWORD := "New password must be different from the current password."

  // ---------------------------------------------------------------------------------------
  // The user store

  function Put(cfg: Config, u: Users, r: CredentialRecord): Users {
    Users(u.bySubject[r.subject := r], u.byIdentifier[cfg.lower(r.identifier) := r.subject])
  }

  function FindByIdentifier(cfg: Config, u: Users, identifier: string): Option<CredentialRecord> {
    var key := cfg.lower(identifier);
    if key in u.byIdentifier && u.byIdentifier[key] in u.bySubject then Some(u.bySubject[u.byIdentifier[key]]) else None
  }

  function FindBySubject(u: Users, subject: string): Option<CredentialRecord> {
    if subject in u.bySubject then Some(u.bySubject[subject]) else None
  }

  function UpdatePasswordHash(cfg: Config, u: Users, subject: string, hash: string): Users {
    if subject in u.bySubject then Put(cfg, u, u.bySubject[subject].(passwordHash := hash)) else u
  }

  function ReplacePasswordHash(cfg: Config, u: Users, subject: string, expected: string, hash: string): (bool, Users) {
    if subject !in u.bySubject || u.bySubject[subject].passwordHash != expected then (false, u)
    else
      var r := u.bySubject[subject];
      (true, Put(cfg, u, CredentialRecord(r.subject, r.identifier, hash, None, 0)))
  }

  function RecordFailedAttempt(cfg: Config, u: Users, subject: string, lockedUntil: Option<int>): Users {
    if subject !in u.bySubject then u
    else
      var r := u.bySubject[subject];
      Put(cfg, u, r.(failedAttempts := r.failedAttempts + 1,
                     lockedUntil := if lockedUntil.Some? then lockedUntil else r.lockedUntil))
  }

  function ClearFailedAttempts(cfg: Config, u: Users, subject: string): Users {
    if subject !in u.bySubject then u
    else
      var r := u.bySubject[subject];
      Put(cfg, u, CredentialRecord(r.subject, r.identifier, r.passwordHash, None, 0))
  }

  // ---------------------------------------------------------------------------------------
  // The calls, each over the user store, the limiter's buckets and the sessions to revoke

  datatype State = State(users: Users, buckets: RL.Buckets, sessions: SS.Backend)

  /** Spends both budgets of a call; the refusal, if any, names the first exhausted one. */
  function SpendBoth(cfg: Config, b: RL.Buckets, scopeA: string, keyA: string, scopeB: string, keyB: string, now: int)
    : (Option<AuthError>, RL.Buckets)
  {
    var (a, b1) := RL.Consume(cfg.limits, b, RL.BucketId(scopeA, keyA), now);
    var (ip, b2) := RL.Consume(cfg.limits, b1, RL.BucketId(scopeB, keyB), now);
    (if !a.allowed then Some(RateLimited(a.retryAfterMs, scopeA))
     else if !ip.allowed then Some(RateLimited(ip.retryAfterMs, scopeB))
     else None, b2)
  }

  predicate Locked(r: CredentialRecord, now: int) {
    r.lockedUntil.Some? && r.lockedUntil.value > now
  }

  /** The bookkeeping of a wrong password: one more failure, and a lock from the threshold on. */
  function Fail(cfg: Config, u: Users, r: CredentialRecord, now: int): Users {
    RecordFailedAttempt(cfg, u, r.subject,
                        if r.failedAttempts + 1 >= cfg.lockoutThreshold then Some(now + cfg.lockoutDurationMs)
                        else None)
  }

  function Authenticate(cfg: Config, st: State, identifier: string, password: string, clientIp: string, newHash: string,
                        now: int): (Outcome, State)
  {
    var name := cfg.normalise(identifier);
    var (limited, buckets) := SpendBoth(cfg, st.buckets, SCOPE_IDENTIFIER, name, SCOPE_IP, clientIp, now);
    var st1 := st.(buckets := buckets);
    if limited.Some? then (Refused(limited.value, None), st1)
    else
      match FindByIdentifier(cfg, st.users, name)
      case None => (Refused(InvalidCredentials, None), st1)
      case Some(r) =>
        if Locked(r, now) then (Refused(AccountLocked(r.lockedUntil.value - now), None), st1)
        else if !cfg.verify(password, r.passwordHash) then
          (Refused(InvalidCredentials, Some(r.subject)), st1.(users := Fail(cfg, st.users, r, now)))
        else
          var cleared := ClearFailedAttempts(cfg, st.users, r.subject);
          (SignedIn(r.subject),
           State(if cfg.needsRehash(r.passwordHash) then UpdatePasswordHash(cfg, cleared, r.subject, newHash)
                 else cleared,
                 buckets - {RL.BucketId(SCOPE_IDENTIFIER, name)}, st.sessions))
  }

  function ChangePassword(cfg: Config, st: State, subject: string, current: string, next: string, clientIp: string,
                          newHash: string, now: int): (Outcome, State)
  {
    var (limited, buckets) := SpendBoth(cfg, st.buckets, SCOPE_CHANGE_SUBJECT, subject, SCOPE_CHANGE_IP, clientIp, now);
    var st1 := st.(buckets := buckets);
    if limited.Some? then (Refused(limited.value, None), st1)
    else
      match FindBySubject(st.users, subject)
      case None => (Refused(InvalidCredentials, None), st1)
      case Some(r) =>
        if Locked(r, now) then (Refused(AccountLocked(r.lockedUntil.value - now), None), st1)
        else if !cfg.verify(current, r.passwordHash) then
          (Refused(InvalidCredentials, Some(r.subject)), st1.(users := Fail(cfg, st.users, r, now)))
        else if cfg.policy(next).Some? then (Refused(PasswordPolicy(cfg.policy(next).value), None), st1)
        else if next == current then (Refused(PasswordPolicy(SAME_PASSWORD), None), st1)
        else
          var (sessions, revoked) := SS.DestroyForSubject(st.sessions, subject);
          var replaced := ReplacePasswordHash(cfg, st.users, subject, r.passwordHash, newHash);
          if replaced.0 then (Changed(revoked), st1.(users := replaced.1, sessions := sessions))
          else (Refused(InvalidCredentials, None), st1.(sessions := sessions))
  }

  // ---------------------------------------------------------------------------------------
  // The objects

  class MemoryUserStore {
    const cfg: Config
    var users: Users

    constructor (cfg: Config)
      ensures this.cfg == cfg && users == Users(map[], map[])
    {
      this.cfg := cfg;
      users := Users(map[], map[]);
    }

    method Seed(r: CredentialRecord)
      modifies this
      ensures users == Put(cfg, old(users), r)
    {
      users := Users(users.bySubject[r.subject := r], users.byIdentifier[cfg.lower(r.identifier) := r.subject]);
    }

    method RecordFailure(subject: string, lockedUntil: Option<int>)
      modifies this
      ensures users == RecordFailedAttempt(cfg, old(users), subject, lockedUntil)
    {
      if subject !in users.bySubject {
        return;
      }
      var r := users.bySubject[subject];
      r := r.(failedAttempts := r.failedAttempts + 1);
      if lockedUntil.Some? {
        r := r.(lockedUntil := lockedUntil);
      }
      Seed(r);
    }

    method ClearFailures(subject: string)
      modifies this
      ensures users == ClearFailedAttempts(cfg, old(users), subject)
    {
      if subject in users.bySubject {
        var r := users.bySubject[subject];
        Seed(CredentialRecord(r.subject, r.identifier, r.passwordHash, None, 0));
      }
    }

    method SetPasswordHash(subject: string, hash: string)
      modifies this
      ensures users == UpdatePasswordHash(cfg, old(users), subject, hash)
    {
      if subject in users.bySubject {
        Seed(users.bySubject[subject].(passwordHash := hash));
      }
    }

    method SwapPasswordHash(subject: string, expected: string, hash: string) returns (swapped: bool)
      modifies this
      ensures (swapped, users) == ReplacePasswordHash(cfg, old(users), subject, expected, hash)
    {
      if subject !in users.bySubject || users.bySubject[subject].passwordHash != expected {
        return false;
      }
      var r := users.bySubject[subject];
      Seed(CredentialRecord(r.subject, r.identifier, hash, None, 0));
      return true;
    }
  }

  class CredentialsProvider {
    const cfg: Config
    const store: MemoryUserStore
    const limiter: RL.MemoryRateLimiter
    const sessions: SS.MemorySessionStore

    ghost predicate Valid() {
      && store.cfg == cfg && limiter.options == cfg.limits && (store as object) != (limiter as object)
      && (store as object) != (sessions as object) && (limiter as object) != (sessions as object)
    }

    ghost function Now(): State
      reads store, limiter, sessions
    {
      State(store.users, limiter.buckets, sessions.View())
    }

    constructor (cfg: Config, store: MemoryUserStore, limiter: RL.MemoryRateLimiter, sessions: SS.MemorySessionStore)
      requires store.cfg == cfg && limiter.options == cfg.limits && (store as object) != (limiter as object)
      requires (store as object) != (sessions as object) && (limiter as object) != (sessions as object)
      ensures Valid() && this.cfg == cfg && this.store == store && this.limiter == limiter && this.sessions == sessions
    {
      this.cfg := cfg;
      this.store := store;
      this.limiter := limiter;
      this.sessions := sessions;
    }

    method Spend(scopeA: string, keyA: string, scopeB: string, keyB: string, now: int)
      returns (limited: Option<AuthError>)
      requires Valid()
      modifies limiter
      ensures (limited, limiter.buckets) == SpendBoth(cfg, old(limiter.buckets), scopeA, keyA, scopeB, keyB, now)
    {
      var first := limiter.TryConsume(scopeA, keyA, now);
      var byIp := limiter.TryConsume(scopeB, keyB, now);
      if !first.allowed || !byIp.allowed {
        var exhausted := if !first.allowed then first else byIp;
        return Some(RateLimited(exhausted.retryAfterMs, if !first.allowed then scopeA else scopeB));
      }
      return None;
    }

    method FailAttempt(r: CredentialRecord, now: int)
      requires Valid()
      modifies store
      ensures store.users == Fail(cfg, old(store.users), r, now)
    {
      var attempts := r.failedAttempts + 1;
      store.RecordFailure(r.subject, if attempts >= cfg.lockoutThreshold then Some(now + cfg.lockoutDurationMs)
                          else None);
    }

    method SignIn(identifier: string, password: string, clientIp: string, newHash: string, now: int)
      returns (r: Outcome)
      requires Valid()
      modifies store, limiter
      ensures (r, Now()) == Authenticate(cfg, old(Now()), identifier, password, clientIp, newHash, now)
    {
      var name := cfg.normalise(identifier);
      var limited := Spend(SCOPE_IDENTIFIER, name, SCOPE_IP, clientIp, now);
      if limited.Some? {
        return Refused(limited.value, None);
      }
      var found := FindByIdentifier(cfg, store.users, name);
      if found.None? {
        return Refused(InvalidCredentials, None);
      }
      var record := found.value;
      if record.lockedUntil.Some? && record.lockedUntil.value > now {
        return Refused(AccountLocked(record.lockedUntil.value - now), None);
      }
      if !cfg.verify(password, record.passwordHash) {
        FailAttempt(record, now);
        return Refused(InvalidCredentials, Some(record.subject));
      }
      store.ClearFailures(record.subject);
      limiter.Reset(SCOPE_IDENTIFIER, name);
      if cfg.needsRehash(record.passwordHash) {
        store.SetPasswordHash(record.subject, newHash);
      }
      return SignedIn(record.subject);
    }

    method Change(subject: string, current: string, next: string, clientIp: string, newHash: string, now: int)
      returns (r: Outcome)
      requires Valid()
      modifies store, limiter, sessions
      ensures (r, Now()) == ChangePassword(cfg, old(Now()), subject, current, next, clientIp, newHash, now)
    {
      var limited := Spend(SCOPE_CHANGE_SUBJECT, subject, SCOPE_CHANGE_IP, clientIp, now);
      if limited.Some? {
        return Refused(limited.value, None);
      }
      var found := FindBySubject(store.users, subject);
      if found.None? {
        return Refused(InvalidCredentials, None);
      }
      var record := found.value;
      if record.lockedUntil.Some? && record.lockedUntil.value > now {
        return Refused(AccountLocked(record.lockedUntil.value - now), None);
      }
      if !cfg.verify(current, record.passwordHash) {
        FailAttempt(record, now);
        return Refused(InvalidCredentials, Some(record.subject));
      }
      var rejection := cfg.policy(next);
      if rejection.Some? {
        return Refused(PasswordPolicy(rejection.value), None);
      }
      if next == current {
        return Refused(PasswordPolicy(SAME_PASSWORD), None);
      }
      var revoked := sessions.DestroyAllFor(subject);
      var changed := store.SwapPasswordHash(subject, record.passwordHash, newHash);
      if !changed {
        return Refused(InvalidCredentials, None);
      }
      return Changed(revoked);
    }
  }
}
