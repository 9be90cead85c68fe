/** What the lock buys: a bound on how fast passwords can be guessed, over any sequential run. */
module Lockout {
  import opened Wrappers
  import opened Credentials

  datatype Call =
    | SignInCall(identifier: string, password: string, clientIp: string, newHash: string, at: int)
    | ChangeCall(subject: string, current: string, next: string, clientIp: string, newHash: string, at: int)
    | ResetCall(subject: string, next: string, newHash: string, at: int)

  /** One call; a completed password reset changes the hash and nothing else. */
  function Do(cfg: Config, st: State, c: Call): (Outcome, State) {
    match c
    case SignInCall(identifier, password, ip, newHash, at) =>
      Authenticate(cfg, st, identifier, password, ip, newHash, at)
    case ChangeCall(subject, current, next, ip, newHash, at) =>
      ChangePassword(cfg, st, subject, current, next, ip, newHash, at)
    case ResetCall(subject, _, newHash, _) =>
      (Changed(0), st.(users := UpdatePasswordHash(cfg, st.users, subject, newHash)))
  }

  predicate InOrder(from: int, calls: seq<Call>)
    decreases calls
  {
    calls == [] || (from <= calls[0].at && InOrder(calls[0].at, calls[1..]))
  }

  /** The call proves knowledge of the subject's password and clears its failures. */
  predicate Succeeds(r: Outcome, c: Call, subject: string) {
    (r.SignedIn? && r.subject == subject) || (c.ChangeCall? && r.Changed? && c.subject == subject)
  }

  predicate NoSuccess(cfg: Config, st: State, calls: seq<Call>, subject: string)
    decreases calls
  {
    calls == [] ||
    (var (r, st') := Do(cfg, st, calls[0]);
     !Succeeds(r, calls[0], subject) && NoSuccess(cfg, st', calls[1..], subject))
  }

  /** When the subject's password was checked and found wrong, by either kind of call. */
  function FailureTimes(cfg: Config, st: State, calls: seq<Call>, subject: string): seq<int>
    decreases calls
  {
    if calls == [] then []
    else
      var (r, st') := Do(cfg, st, calls[0]);
      (if r.Refused? && r.mismatch == Some(subject) then [calls[0].at] else [])
      + FailureTimes(cfg, st', calls[1..], subject)
  }

  /** Records are filed under their own subject. */
  ghost predicate Filed(u: Users) {
    forall s :: s in u.bySubject ==> u.bySubject[s].subject == s
  }

  /** The part of a record the lock depends on. */
  function LockState(u: Users, subject: string): Option<(nat, Option<int>)> {
    if subject in u.bySubject then Some((u.bySubject[subject].failedAttempts, u.bySubject[subject].lockedUntil))
    else None
  }

  lemma FailureMovesLock(cfg: Config, u: Users, s: string, subject: string, lockedUntil: Option<int>)
    requires Filed(u)
    ensures var v := RecordFailedAttempt(cfg, u, s, lockedUntil);
            && Filed(v)
            && LockState(v, subject) ==
               var before := LockState(u, subject);
               if s != subject || before.None? then before
               else Some((before.value.0 + 1, if lockedUntil.Some? then lockedUntil else before.value.1))
  {
  }

  lemma ClearingMovesLock(cfg: Config, u: Users, s: string, subject: string, expected: string, hash: string)
    requires Filed(u)
    ensures var v := ClearFailedAttempts(cfg, u, s);
            && Filed(v)
            && LockState(v, subject) ==
               if s == subject && s in u.bySubject then Some((0, None)) else LockState(u, subject)
    ensures var (swapped, v) := ReplacePasswordHash(cfg, u, s, expected, hash);
            && Filed(v)
            && LockState(v, subject) == if s == subject && swapped then Some((0, None)) else LockState(u, subject)
  {
  }

  lemma RehashKeepsLock(cfg: Config, u: Users, s: string, subject: string, hash: string)
    requires Filed(u)
    ensures var v := UpdatePasswordHash(cfg, u, s, hash);
            Filed(v) && LockState(v, subject) == LockState(u, subject)
  {
  }

  /**
   * How one call may move a subject's lock: only its own mismatches count, only unlocked
   * ones happen, a success wipes the slate, and nothing else touches it.
   */
  predicate LockMoves(cfg: Config, before: Option<(nat, Option<int>)>, after: Option<(nat, Option<int>)>,
                      r: Outcome, c: Call, subject: string)
  {
    if r.Refused? && r.mismatch == Some(subject) then
      && before.Some? && after.Some?
      && (before.value.1.Some? ==> before.value.1.value <= c.at)
      && after.value.0 == before.value.0 + 1
      && after.value.1 == if after.value.0 >= cfg.lockoutThreshold then Some(c.at + cfg.lockoutDurationMs)
                          else before.value.1
    else if Succeeds(r, c, subject) then after == Some((0, None))
    else after == before
  }

  lemma SignInMovesLock(cfg: Config, st: State, c: Call, subject: string)
    requires Filed(st.users) && c.SignInCall?
    ensures var (r, st') := Do(cfg, st, c);
            Filed(st'.users) && LockMoves(cfg, LockState(st.users, subject), LockState(st'.users, subject), r, c,
                                          subject)
  {
    hide SpendBoth, UpdatePasswordHash, RecordFailedAttempt, ClearFailedAttempts;
    var found := FindByIdentifier(cfg, st.users, cfg.normalise(c.identifier));
    if found.Some? {
      var r := found.value;
      FailureMovesLock(cfg, st.users, r.subject, subject,
                       if r.failedAttempts + 1 >= cfg.lockoutThreshold then Some(c.at + cfg.lockoutDurationMs)
                       else None);
      ClearingMovesLock(cfg, st.users, r.subject, subject, r.passwordHash, c.newHash);
      RehashKeepsLock(cfg, ClearFailedAttempts(cfg, st.users, r.subject), r.subject, subject, c.newHash);
    }
  }

  lemma ChangeMovesLock(cfg: Config, st: State, c: Call, subject: string)
    requires Filed(st.users) && c.ChangeCall?
    ensures var (r, st') := Do(cfg, st, c);
            Filed(st'.users) && LockMoves(cfg, LockState(st.users, subject), LockState(st'.users, subject), r, c,
                                          subject)
  {
    hide SpendBoth, RecordFailedAttempt, ReplacePasswordHash;
    var found := FindBySubject(st.users, c.subject);
    if found.Some? {
      var r := found.value;
      FailureMovesLock(cfg, st.users, r.subject, subject,
                       if r.failedAttempts + 1 >= cfg.lockoutThreshold then Some(c.at + cfg.lockoutDurationMs)
                       else None);
      ClearingMovesLock(cfg, st.users, c.subject, subject, r.passwordHash, c.newHash);
    }
  }

  lemma CallMovesLock(cfg: Config, st: State, c: Call, subject: string)
    requires Filed(st.users)
    ensures var (r, st') := Do(cfg, st, c);
            Filed(st'.users) && LockMoves(cfg, LockState(st.users, subject), LockState(st'.users, subject), r, c,
                                          subject)
  {
    match c
    case SignInCall(_, _, _, _, _) => SignInMovesLock(cfg, st, c, subject);
    case ChangeCall(_, _, _, _, _, _) => ChangeMovesLock(cfg, st, c, subject);
    case ResetCall(s, _, newHash, _) => RehashKeepsLock(cfg, st.users, s, subject, newHash);
  }

  /**
   * Failures from the threshold on are spaced by the lock: `n` failures have been recorded
   * so far, and past the threshold `last` is the instant of the latest.
   */
  lemma {:induction false} FailuresSpaced(cfg: Config, st: State, calls: seq<Call>, subject: string, n: nat, last: int,
                                          from: int, i: nat)
    requires Filed(st.users) && InOrder(from, calls) && NoSuccess(cfg, st, calls, subject)
    requires 0 < cfg.lockoutThreshold
    requires var l := LockState(st.users, subject);
             l.Some? ==> l.value.0 >= n && (n >= cfg.lockoutThreshold ==>
                                            l.value.1 == Some(last + cfg.lockoutDurationMs))
    requires i < |FailureTimes(cfg, st, calls, subject)| && n + i + 1 >= cfg.lockoutThreshold
    ensures var times := FailureTimes(cfg, st, calls, subject);
            var d, t := cfg.lockoutDurationMs, cfg.lockoutThreshold;
            times[i] >= if n >= t then last + (i + 1) * d else times[t - n - 1] + (n + i + 1 - t) * d
    decreases calls
  {
    hide Do;
    var c := calls[0];
    var (r, st') := Do(cfg, st, c);
    var rest := FailureTimes(cfg, st', calls[1..], subject);
    var d, t := cfg.lockoutDurationMs, cfg.lockoutThreshold;
    CallMovesLock(cfg, st, c, subject);
    if r.Refused? && r.mismatch == Some(subject) {
      var times := FailureTimes(cfg, st, calls, subject);
      assert times == [c.at] + rest;
      if i > 0 {
        FailuresSpaced(cfg, st', calls[1..], subject, n + 1, c.at, c.at, i - 1);
        if n >= t {
          assert (i + 1) * d == i * d + d;
        }
      }
    } else {
      FailuresSpaced(cfg, st', calls[1..], subject, n, last, c.at, i);
    }
  }

  /**
   * The lock bounds guessing: without a success in between, the k-th wrong password for a
   * subject comes at least (k - threshold) lock durations after the threshold-th, whichever
   * of the two kinds of call made them and whatever other subjects do.
   */
  lemma {:induction false} LockoutBoundsGuessing(cfg: Config, st: State, calls: seq<Call>, subject: string, from: int,
                                                 k: nat)
    requires Filed(st.users) && InOrder(from, calls) && NoSuccess(cfg, st, calls, subject)
    requires 0 < cfg.lockoutThreshold <= k <= |FailureTimes(cfg, st, calls, subject)|
    ensures var times := FailureTimes(cfg, st, calls, subject);
            times[k - 1] >= times[cfg.lockoutThreshold - 1] + (k - cfg.lockoutThreshold) * cfg.lockoutDurationMs
  {
    hide Do;
    FailuresSpaced(cfg, st, calls, subject, 0, 0, from, k - 1);
  }

  /** While the lock holds, no password is even checked: the right one is refused like a wrong one. */
  lemma LockedRefusesEveryPassword(cfg: Config, st: State, c: Call, subject: string)
    requires Filed(st.users) && subject in st.users.bySubject && Locked(st.users.bySubject[subject], c.at)
    ensures var (r, st') := Do(cfg, st, c);
            !Succeeds(r, c, subject) && !(r.Refused? && r.mismatch == Some(subject))
            && LockState(st'.users, subject) == LockState(st.users, subject)
  {
  }
}
