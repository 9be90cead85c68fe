/**
 * Redeeming password-reset capabilities. Every await of `redeem` is a point where other
 * redemptions, issues, revocations and the clock can move, so a run is a sequence of steps
 * in which any started redemption may go on.
 */
module PasswordReset {
  import opened ResetStore
  import opened SubjectSessions

  type Pid = nat

  datatype Failure = RateLimited | MalformedToken | NotAvailable | PolicyRejected | LostRace

  /** Where a redemption stands, named by what it does next. */
  datatype Progress =
    | Reading(digest: string)
    | Hashing(digest: string, available: ResetRecord)
    | Consuming(digest: string, available: ResetRecord, hash: string)
    | Revoking(digest: string, subject: string, hash: string)
    | Updating(digest: string, subject: string, hash: string)
    | Notifying(digest: string, subject: string)
    | Succeeded(digest: string, subject: string)
    | Failed(reason: Failure)

  /** What the outside world sees of a redemption. */
  datatype Effect =
    | Consumed(pid: Pid, digest: string, at: int)
    | SessionsRevoked(pid: Pid, subject: string)
    | PasswordUpdated(pid: Pid, digest: string, subject: string, hash: string)

  datatype World = World(
    now: int,
    tables: Tables,
    issued: map<string, ResetRecord>,
    redemptions: map<Pid, Progress>,
    stopped: set<Pid>,
    sessions: Sessions,
    log: seq<Effect>)

  datatype Step =
    | Tick(ms: nat)
    | Issue(subject: string, digest: string, allowed: bool)
    | RevokeToken(subject: string)
    | Start(pid: Pid, digest: string, allowed: bool, wellFormed: bool)
    | ReadToken(pid: Pid, policyAccepts: bool)
    | Hashed(pid: Pid, hash: string)
    | ConsumeToken(pid: Pid)
    | RevokeSessions(pid: Pid)
    | UpdatePassword(pid: Pid)
    | Notified(pid: Pid)
    | SignIn(sid: SessionId, subject: string)
    | Rejects(pid: Pid)

  /** A redemption that has neither returned nor thrown. */
  predicate Underway(w: World, pid: Pid) {
    pid in w.redemptions && pid !in w.stopped
  }

  /**
   * Digests are never drawn twice; a redemption steps only from where it stands. What it
   * waits for there may reject instead, which ends it with that call undone.
   */
  predicate Enabled(w: World, step: Step) {
    match step
    case Tick(_) => true
    case Issue(_, digest, _) => digest !in w.issued
    case RevokeToken(_) => true
    case Start(pid, _, _, _) => pid !in w.redemptions
    case ReadToken(pid, _) => Underway(w, pid) && w.redemptions[pid].Reading?
    case Hashed(pid, _) => Underway(w, pid) && w.redemptions[pid].Hashing?
    case ConsumeToken(pid) => Underway(w, pid) && w.redemptions[pid].Consuming?
    case RevokeSessions(pid) => Underway(w, pid) && w.redemptions[pid].Revoking?
    case UpdatePassword(pid) => Underway(w, pid) && w.redemptions[pid].Updating?
    case Notified(pid) => Underway(w, pid) && w.redemptions[pid].Notifying?
    case SignIn(sid, _) => sid !in w.sessions
    case Rejects(pid) => Underway(w, pid) && !w.redemptions[pid].Succeeded? && !w.redemptions[pid].Failed?
  }

  /** What a step does to the live sessions. */
  function MoveOf(w: World, step: Step): Move
    requires Enabled(w, step)
  {
    match step
    case SignIn(sid, subject) => Opened(sid, subject)
    case RevokeSessions(pid) => Ended(w.redemptions[pid].subject)
    case _ => Still
  }

  function Went(w: World, pid: Pid, p: Progress): World {
    w.(redemptions := w.redemptions[pid := p])
  }

  function Next(ttlMs: int, w: World, step: Step): World
    requires Enabled(w, step)
  {
    match step
    case Tick(ms) => w.(now := w.now + ms)
    case Issue(subject, digest, allowed) =>
      if !allowed then w
      else
        var r := ResetRecord(digest, subject, w.now + ttlMs);
        w.(tables := Replace(w.tables, r), issued := w.issued[digest := r])
    case RevokeToken(subject) => w.(tables := Revoke(w.tables, subject))
    case Start(pid, digest, allowed, wellFormed) =>
      Went(w, pid, if !allowed then Failed(RateLimited) else if !wellFormed then Failed(MalformedToken)
           else Reading(digest))
    case ReadToken(pid, policyAccepts) =>
      var digest := w.redemptions[pid].digest;
      var (available, tables) := FindLive(w.tables, digest, w.now);
      Went(w, pid,
           if available.None? then Failed(NotAvailable)
           else if !policyAccepts then Failed(PolicyRejected)
           else Hashing(digest, available.value)).(tables := tables)
    case Hashed(pid, hash) =>
      Went(w, pid, Consuming(w.redemptions[pid].digest, w.redemptions[pid].available, hash))
    case ConsumeToken(pid) =>
      var p := w.redemptions[pid];
      var (consumed, tables) := Consume(w.tables, p.digest, w.now);
      var w' := w.(tables := tables, log := if consumed.Some? then w.log + [Consumed(pid, p.digest, w.now)] else w.log);
      if consumed.None? || consumed.value.subject != p.available.subject then Went(w', pid, Failed(LostRace))
      else Went(w', pid, Revoking(p.digest, consumed.value.subject, p.hash))
    case RevokeSessions(pid) =>
      var p := w.redemptions[pid];
      Went(w, pid, Updating(p.digest, p.subject, p.hash)).(
        sessions := After(w.sessions, MoveOf(w, step)),
        log := w.log + [SessionsRevoked(pid, p.subject)])
    case UpdatePassword(pid) =>
      var p := w.redemptions[pid];
      Went(w, pid, Notifying(p.digest, p.subject)).(log := w.log + [PasswordUpdated(pid, p.digest, p.subject, p.hash)])
    case Notified(pid) =>
      var p := w.redemptions[pid];
      Went(w, pid, Succeeded(p.digest, p.subject))
    case SignIn(_, _) => w.(sessions := After(w.sessions, MoveOf(w, step)))
    case Rejects(pid) => w.(stopped := w.stopped + {pid})
  }

  predicate Admissible(ttlMs: int, w: World, steps: seq<Step>)
    decreases steps
  {
    steps == [] || (Enabled(w, steps[0]) && Admissible(ttlMs, Next(ttlMs, w, steps[0]), steps[1..]))
  }

  function Run(ttlMs: int, w: World, steps: seq<Step>): World
    requires Admissible(ttlMs, w, steps)
    decreases steps
  {
    if steps == [] then w else Run(ttlMs, Next(ttlMs, w, steps[0]), steps[1..])
  }

  function Initial(now: int): World {
    World(now, Tables(map[], map[]), map[], map[], {}, map[], [])
  }

  // ---------------------------------------------------------------------------------------
  // The invariant

  ghost predicate Spent(w: World, pid: Pid, digest: string) {
    exists i :: 0 <= i < |w.log| && w.log[i].Consumed? && w.log[i].pid == pid && w.log[i].digest == digest
  }

  /** Issued and never consumed yet. */
  ghost predicate Unspent(w: World, digest: string) {
    forall i :: 0 <= i < |w.log| && w.log[i].Consumed? ==> w.log[i].digest != digest
  }

  ghost predicate TablesOk(w: World) {
    && Inverse(w.tables)
    && forall d :: d in w.tables.byDigest ==> d in w.issued && w.issued[d] == w.tables.byDigest[d] && Unspent(w, d)
  }

  ghost predicate ProgressOk(w: World, pid: Pid)
    requires pid in w.redemptions
  {
    var p := w.redemptions[pid];
    && (p.Hashing? || p.Consuming? ==> p.digest in w.issued && w.issued[p.digest] == p.available)
    && (p.Revoking? || p.Updating? || p.Notifying? || p.Succeeded? ==>
          p.digest in w.issued && w.issued[p.digest].subject == p.subject && Spent(w, pid, p.digest))
    && (p.Updating? || p.Notifying? || p.Succeeded? ==> SessionsRevoked(pid, p.subject) in w.log)
  }

  ghost predicate LogOk(w: World) {
    && (forall i :: 0 <= i < |w.log| && w.log[i].Consumed? ==>
          w.log[i].digest in w.issued && w.log[i].at < w.issued[w.log[i].digest].expiresAt
          && w.log[i].pid in w.redemptions
          && !w.redemptions[w.log[i].pid].Reading?
          && !w.redemptions[w.log[i].pid].Hashing? && !w.redemptions[w.log[i].pid].Consuming?)
    && (forall i, j :: 0 <= i < j < |w.log| && w.log[i].Consumed? && w.log[j].Consumed? ==>
        w.log[i].digest != w.log[j].digest)
    && (forall i :: 0 <= i < |w.log| && w.log[i].PasswordUpdated? ==>
          && w.log[i].pid in w.redemptions
          && (w.redemptions[w.log[i].pid].Notifying? || w.redemptions[w.log[i].pid].Succeeded?)
          && w.redemptions[w.log[i].pid].digest == w.log[i].digest
          && w.redemptions[w.log[i].pid].subject == w.log[i].subject
          && SessionsRevoked(w.log[i].pid, w.log[i].subject) in w.log[..i])
    && (forall i, j :: 0 <= i < j < |w.log| && w.log[i].PasswordUpdated? && w.log[j].PasswordUpdated? ==>
          w.log[i].digest != w.log[j].digest)
  }

  ghost predicate Inv(w: World) {
    && TablesOk(w)
    && (forall pid :: pid in w.redemptions ==> ProgressOk(w, pid))
    && LogOk(w)
  }

  lemma SpentOnce(w: World, p: Pid, q: Pid, digest: string)
    requires LogOk(w) && Spent(w, p, digest) && Spent(w, q, digest)
    ensures p == q
  {
  }

  /** Dropping capabilities keeps the store in order, if what the log gains consumes none that is left. */
  lemma FewerKeepsTables(w: World, w': World)
    requires TablesOk(w) && Inverse(w'.tables) && w'.issued == w.issued
    requires forall d :: d in w'.tables.byDigest ==>
               d in w.tables.byDigest && w'.tables.byDigest[d] == w.tables.byDigest[d]
    requires w'.log == w.log
             || exists e :: w'.log == w.log + [e] && (e.Consumed? ==> e.digest !in w'.tables.byDigest)
    ensures TablesOk(w')
  {
    forall d | d in w'.tables.byDigest ensures Unspent(w', d) {
      assert Unspent(w, d);
    }
  }

  lemma IssueKeepsTables(ttlMs: int, w: World, subject: string, digest: string)
    requires TablesOk(w) && digest !in w.issued
    requires LogOk(w)
    ensures TablesOk(Next(ttlMs, w, Issue(subject, digest, true)))
  {
    var r := ResetRecord(digest, subject, w.now + ttlMs);
    var w' := Next(ttlMs, w, Issue(subject, digest, true));
    ReplaceKeepsInverseExactly(w.tables, r);
    forall d | d in w'.tables.byDigest
      ensures d in w'.issued && w'.issued[d] == w'.tables.byDigest[d] && Unspent(w', d)
    {
      assert d in w.tables.byDigest || d == digest;
      assert d in w.tables.byDigest ==> Unspent(w, d);
    }
  }

  /** The store stays in order, and only ever holds capabilities that were never consumed. */
  lemma StepKeepsTables(ttlMs: int, w: World, step: Step)
    requires Inv(w) && Enabled(w, step) && !step.RevokeSessions? && !step.UpdatePassword?
    ensures TablesOk(Next(ttlMs, w, step))
  {
    var w' := Next(ttlMs, w, step);
    if step.Issue? {
      if step.allowed {
        IssueKeepsTables(ttlMs, w, step.subject, step.digest);
      }
    } else {
      if step.RevokeToken? {
        RemovalsKeepInverse(w.tables, "", step.subject, 0);
      } else if step.ReadToken? {
        RemovalsKeepInverse(w.tables, w.redemptions[step.pid].digest, "", w.now);
      } else if step.ConsumeToken? {
        var e := Consumed(step.pid, w.redemptions[step.pid].digest, w.now);
        RemovalsKeepInverse(w.tables, e.digest, "", w.now);
        assert w'.log == w.log || (w'.log == w.log + [e] && e.digest !in w'.tables.byDigest);
      }
      FewerKeepsTables(w, w');
    }
  }

  /** A redemption that has consumed nothing yet, or is about to finish, moves without touching the log. */
  lemma MoveKeepsInv(w: World, w': World, pid: Pid, p: Progress)
    requires Inv(w) && TablesOk(w')
    requires w' == Went(w, pid, p).(tables := w'.tables)
    requires pid in w.redemptions ==>
               w.redemptions[pid].Reading? || w.redemptions[pid].Hashing? || w.redemptions[pid].Notifying?
    requires ProgressOk(w', pid)
    requires pid in w.redemptions && w.redemptions[pid].Notifying? ==>
               p == Succeeded(w.redemptions[pid].digest, w.redemptions[pid].subject)
    ensures Inv(w')
  {
    forall q | q in w'.redemptions ensures ProgressOk(w', q) {
      if q != pid { assert ProgressOk(w, q); }
    }
  }

  /** Steps that leave the log alone. */
  lemma QuietStepKeepsInv(ttlMs: int, w: World, step: Step)
    requires Inv(w) && Enabled(w, step)
    requires !step.ConsumeToken? && !step.RevokeSessions? && !step.UpdatePassword?
    ensures Inv(Next(ttlMs, w, step))
  {
    StepKeepsTables(ttlMs, w, step);
    var w' := Next(ttlMs, w, step);
    match step {
      case Start(pid, _, _, _) => MoveKeepsInv(w, w', pid, w'.redemptions[pid]);
      case ReadToken(pid, _) => MoveKeepsInv(w, w', pid, w'.redemptions[pid]);
      case Hashed(pid, _) =>
        assert ProgressOk(w, pid);
        MoveKeepsInv(w, w', pid, w'.redemptions[pid]);
      case Notified(pid) =>
        assert ProgressOk(w, pid);
        MoveKeepsInv(w, w', pid, w'.redemptions[pid]);
      case Tick(_) => ElsewhereKeepsInv(w, w');
      case Issue(_, _, _) => ElsewhereKeepsInv(w, w');
      case RevokeToken(_) => ElsewhereKeepsInv(w, w');
      case SignIn(_, _) => ElsewhereKeepsInv(w, w');
      case Rejects(_) => ElsewhereKeepsInv(w, w');
    }
  }

  lemma ElsewhereKeepsInv(w: World, w': World)
    requires Inv(w) && TablesOk(w')
    requires w'.redemptions == w.redemptions && w'.log == w.log
    requires forall d :: d in w.issued ==> d in w'.issued && w'.issued[d] == w.issued[d]
    ensures Inv(w')
  {
    forall q | q in w'.redemptions ensures ProgressOk(w', q) {
      assert ProgressOk(w, q);
    }
  }

  lemma ConsumeKeepsInv(ttlMs: int, w: World, pid: Pid)
    requires Inv(w) && Enabled(w, ConsumeToken(pid))
    ensures Inv(Next(ttlMs, w, ConsumeToken(pid)))
  {
    var w' := Next(ttlMs, w, ConsumeToken(pid));
    var p := w.redemptions[pid];
    StepKeepsTables(ttlMs, w, ConsumeToken(pid));
    assert ProgressOk(w, pid);
    if Consume(w.tables, p.digest, w.now).0.Some? {
      assert Unspent(w, p.digest);
      assert w'.log[|w.log|] == Consumed(pid, p.digest, w.now);
      assert Spent(w', pid, p.digest);
      ConsumeKeepsLog(w, w', pid, p.digest);
    }
    forall q | q in w'.redemptions ensures ProgressOk(w', q) {
      assert ProgressOk(w, q);
      LogGrows(w, w', q);
    }
  }

  lemma ConsumeKeepsLog(w: World, w': World, pid: Pid, digest: string)
    requires LogOk(w) && Unspent(w, digest) && digest in w.issued && w.now < w.issued[digest].expiresAt
    requires pid in w.redemptions && w.redemptions[pid].Consuming?
    requires w'.log == w.log + [Consumed(pid, digest, w.now)] && w'.issued == w.issued
    requires pid in w'.redemptions && (w'.redemptions[pid].Failed? || w'.redemptions[pid].Revoking?)
    requires forall q :: q in w.redemptions && q != pid ==> q in w'.redemptions && w'.redemptions[q] == w.redemptions[q]
    ensures LogOk(w')
  {
    assert forall i :: 0 <= i < |w.log| ==> w'.log[..i] == w.log[..i];
  }

  /** What a redemption relies on in the log stays there as the log grows. */
  lemma LogGrows(w: World, w': World, pid: Pid)
    requires |w.log| <= |w'.log| && w'.log[..|w.log|] == w.log
    ensures forall d :: Spent(w, pid, d) ==> Spent(w', pid, d)
    ensures forall e :: e in w.log ==> e in w'.log
  {
    forall d | Spent(w, pid, d) ensures Spent(w', pid, d) {
      var i :| 0 <= i < |w.log| && w.log[i].Consumed? && w.log[i].pid == pid && w.log[i].digest == d;
      assert w'.log[i] == w.log[i];
    }
    forall e | e in w.log ensures e in w'.log {
      var i :| 0 <= i < |w.log| && w.log[i] == e;
      assert w'.log[i] == e;
    }
  }

  lemma RevokedKeepsLog(w: World, w': World, pid: Pid)
    requires LogOk(w) && pid in w.redemptions && w.redemptions[pid].Revoking?
    requires w'.log == w.log + [SessionsRevoked(pid, w.redemptions[pid].subject)] && w'.issued == w.issued
    requires pid in w'.redemptions && w'.redemptions[pid].Updating?
    requires forall q :: q in w.redemptions && q != pid ==> q in w'.redemptions && w'.redemptions[q] == w.redemptions[q]
    ensures LogOk(w')
  {
    assert forall i :: 0 <= i < |w.log| ==> w'.log[..i] == w.log[..i];
  }

  lemma UpdatedKeepsLog(w: World, w': World, pid: Pid)
    requires LogOk(w) && pid in w.redemptions && w.redemptions[pid].Updating? && ProgressOk(w, pid)
    requires forall i :: 0 <= i < |w.log| && w.log[i].PasswordUpdated? ==> w.log[i].digest != w.redemptions[pid].digest
    requires var p := w.redemptions[pid];
             && w'.log == w.log + [PasswordUpdated(pid, p.digest, p.subject, p.hash)] && w'.issued == w.issued
             && pid in w'.redemptions && w'.redemptions[pid] == Notifying(p.digest, p.subject)
    requires forall q :: q in w.redemptions && q != pid ==> q in w'.redemptions && w'.redemptions[q] == w.redemptions[q]
    ensures LogOk(w')
  {
    assert forall i :: 0 <= i <= |w.log| ==> w'.log[..i] == w.log[..i];
    assert w'.log[..|w.log|] == w.log;
  }

  /** A log entry that consumes nothing leaves the store's relation to the log alone. */
  lemma EntryKeepsTables(w: World, w': World, e: Effect)
    requires TablesOk(w) && !e.Consumed?
    requires w'.tables == w.tables && w'.issued == w.issued && w'.log == w.log + [e]
    ensures TablesOk(w')
  {
    forall d | Unspent(w, d) ensures Unspent(w', d) {
    }
  }

  lemma RevokeSessionsKeepsInv(ttlMs: int, w: World, pid: Pid)
    requires Inv(w) && Enabled(w, RevokeSessions(pid))
    ensures Inv(Next(ttlMs, w, RevokeSessions(pid)))
  {
    var w' := Next(ttlMs, w, RevokeSessions(pid));
    assert ProgressOk(w, pid);
    var e := SessionsRevoked(pid, w.redemptions[pid].subject);
    assert w'.log[|w.log|] == e;
    RevokedKeepsLog(w, w', pid);
    EntryKeepsTables(w, w', e);
    hide TablesOk, LogOk;
    forall q | q in w'.redemptions ensures ProgressOk(w', q) {
      assert ProgressOk(w, q);
      LogGrows(w, w', q);
    }
  }

  lemma UpdateKeepsInv(ttlMs: int, w: World, pid: Pid)
    requires Inv(w) && Enabled(w, UpdatePassword(pid))
    ensures Inv(Next(ttlMs, w, UpdatePassword(pid)))
  {
    var w' := Next(ttlMs, w, UpdatePassword(pid));
    var p := w.redemptions[pid];
    assert ProgressOk(w, pid);
    var e := PasswordUpdated(pid, p.digest, p.subject, p.hash);
    assert w'.log[|w.log|] == e;
    forall i | 0 <= i < |w.log| && w.log[i].PasswordUpdated? ensures w.log[i].digest != p.digest {
      assert ProgressOk(w, w.log[i].pid);
      if w.log[i].digest == p.digest {
        SpentOnce(w, pid, w.log[i].pid, p.digest);
      }
    }
    UpdatedKeepsLog(w, w', pid);
    EntryKeepsTables(w, w', e);
    hide TablesOk, LogOk;
    forall q | q in w'.redemptions ensures ProgressOk(w', q) {
      assert ProgressOk(w, q);
      LogGrows(w, w', q);
    }
  }

  lemma StepKeepsInv(ttlMs: int, w: World, step: Step)
    requires Inv(w) && Enabled(w, step)
    ensures Inv(Next(ttlMs, w, step))
  {
    match step
    case ConsumeToken(pid) => ConsumeKeepsInv(ttlMs, w, pid);
    case RevokeSessions(pid) => RevokeSessionsKeepsInv(ttlMs, w, pid);
    case UpdatePassword(pid) => UpdateKeepsInv(ttlMs, w, pid);
    case _ => QuietStepKeepsInv(ttlMs, w, step);
  }

  lemma {:induction false} RunKeepsInv(ttlMs: int, w: World, steps: seq<Step>)
    requires Inv(w) && Admissible(ttlMs, w, steps)
    ensures Inv(Run(ttlMs, w, steps))
    decreases steps
  {
    if steps != [] {
      StepKeepsInv(ttlMs, w, steps[0]);
      RunKeepsInv(ttlMs, Next(ttlMs, w, steps[0]), steps[1..]);
    }
  }

  // ---------------------------------------------------------------------------------------
  // Single use

  /**
   * However redemptions, issues and revocations interleave: a capability updates a password
   * at most once, only its own subject's, only after that subject's sessions were revoked
   * by the same redemption.
   */
  lemma {:induction false} SingleUse(ttlMs: int, now: int, steps: seq<Step>, i: nat, j: nat)
    requires Admissible(ttlMs, Initial(now), steps)
    requires var log := Run(ttlMs, Initial(now), steps).log;
             i < |log| && log[i].PasswordUpdated? && j < |log| && log[j].PasswordUpdated?
    ensures var w := Run(ttlMs, Initial(now), steps);
            && (w.log[i].digest == w.log[j].digest ==> i == j)
            && w.log[i].digest in w.issued && w.issued[w.log[i].digest].subject == w.log[i].subject
            && SessionsRevoked(w.log[i].pid, w.log[i].subject) in w.log[..i]
  {
    RunKeepsInv(ttlMs, Initial(now), steps);
    var w := Run(ttlMs, Initial(now), steps);
    assert ProgressOk(w, w.log[i].pid);
  }

  /** Every update was paid for by consuming its capability, strictly before it expired. */
  lemma ConsumedInTime(ttlMs: int, now: int, steps: seq<Step>, i: nat) returns (c: nat)
    requires Admissible(ttlMs, Initial(now), steps)
    requires var log := Run(ttlMs, Initial(now), steps).log; i < |log| && log[i].PasswordUpdated?
    ensures var w := Run(ttlMs, Initial(now), steps);
            && c < |w.log| && w.log[c].Consumed?
            && w.log[c].pid == w.log[i].pid && w.log[c].digest == w.log[i].digest
            && w.log[c].digest in w.issued && w.log[c].at < w.issued[w.log[c].digest].expiresAt
  {
    RunKeepsInv(ttlMs, Initial(now), steps);
    var w := Run(ttlMs, Initial(now), steps);
    assert ProgressOk(w, w.log[i].pid);
    c :| 0 <= c < |w.log| && w.log[c].Consumed? && w.log[c].pid == w.log[i].pid && w.log[c].digest == w.log[i].digest;
  }

  /** In every reachable state each subject has at most one live capability. */
  lemma {:induction false} OneCapabilityPerSubject(ttlMs: int, now: int, steps: seq<Step>, d: string, e: string)
    requires Admissible(ttlMs, Initial(now), steps)
    requires var t := Run(ttlMs, Initial(now), steps).tables;
             d in t.byDigest && e in t.byDigest && t.byDigest[d].subject == t.byDigest[e].subject
    ensures d == e
  {
    RunKeepsInv(ttlMs, Initial(now), steps);
  }

  lemma StepGone(ttlMs: int, w: World, step: Step, digest: string)
    requires Inv(w) && Enabled(w, step)
    requires digest in w.issued && digest !in w.tables.byDigest
    ensures var w' := Next(ttlMs, w, step);
            && digest in w'.issued && digest !in w'.tables.byDigest
            && (w'.log == w.log || exists e :: w'.log == w.log + [e] && (e.Consumed? ==> e.digest != digest))
  {
    if step.ConsumeToken? {
      var w', e := Next(ttlMs, w, step), Consumed(step.pid, w.redemptions[step.pid].digest, w.now);
      assert w'.log == w.log || w'.log == w.log + [e];
    } else if step.RevokeSessions? {
      assert Next(ttlMs, w, step).log == w.log + [SessionsRevoked(step.pid, w.redemptions[step.pid].subject)];
    } else if step.UpdatePassword? {
      var p := w.redemptions[step.pid];
      assert Next(ttlMs, w, step).log == w.log + [PasswordUpdated(step.pid, p.digest, p.subject, p.hash)];
    }
  }

  /** The log has grown, and none of what was added consumes the digest. */
  ghost predicate NotConsumedSince(w: World, w': World, digest: string) {
    |w.log| <= |w'.log| && w'.log[..|w.log|] == w.log
    && forall i :: |w.log| <= i < |w'.log| && w'.log[i].Consumed? ==> w'.log[i].digest != digest
  }

  lemma NotConsumedOn(w: World, w1: World, w': World, digest: string)
    requires NotConsumedSince(w, w1, digest) && NotConsumedSince(w1, w', digest)
    ensures NotConsumedSince(w, w', digest)
  {
    assert w'.log[..|w.log|] == w'.log[..|w1.log|][..|w.log|];
    forall i | |w.log| <= i < |w'.log| && w'.log[i].Consumed? ensures w'.log[i].digest != digest {
      if i < |w1.log| {
        assert w'.log[i] == w'.log[..|w1.log|][i];
      }
    }
  }

  lemma {:induction false} GoneStaysGone(ttlMs: int, w: World, steps: seq<Step>, digest: string)
    requires Inv(w) && Admissible(ttlMs, w, steps)
    requires digest in w.issued && digest !in w.tables.byDigest
    ensures NotConsumedSince(w, Run(ttlMs, w, steps), digest)
    decreases steps
  {
    hide Next;
    if steps != [] {
      var w1 := Next(ttlMs, w, steps[0]);
      StepKeepsInv(ttlMs, w, steps[0]);
      StepGone(ttlMs, w, steps[0], digest);
      assert NotConsumedSince(w, w1, digest);
      GoneStaysGone(ttlMs, w1, steps[1..], digest);
      NotConsumedOn(w, w1, Run(ttlMs, w1, steps[1..]), digest);
    }
  }

  /** Issuing anew, or revoking, ends the subject's earlier capability for good. */
  lemma {:induction false} ReplacedCapabilityIsDead(ttlMs: int, w: World, step: Step, after: seq<Step>, digest: string)
    requires Inv(w) && Enabled(w, step) && Admissible(ttlMs, Next(ttlMs, w, step), after)
    requires digest in w.issued
    requires (step.Issue? && step.allowed && step.subject == w.issued[digest].subject)
             || (step.RevokeToken? && step.subject == w.issued[digest].subject)
    ensures NotConsumedSince(w, Run(ttlMs, Next(ttlMs, w, step), after), digest)
  {
    StepKeepsInv(ttlMs, w, step);
    RemovalsKeepInverse(w.tables, "", step.subject, 0);
    GoneStaysGone(ttlMs, Next(ttlMs, w, step), after, digest);
  }

  // ---------------------------------------------------------------------------------------
  // Sessions

  function Moves(ttlMs: int, w: World, steps: seq<Step>): seq<Move>
    requires Admissible(ttlMs, w, steps)
    decreases steps
  {
    if steps == [] then [] else [MoveOf(w, steps[0])] + Moves(ttlMs, Next(ttlMs, w, steps[0]), steps[1..])
  }

  lemma {:induction false} SessionsFollowMoves(ttlMs: int, w: World, steps: seq<Step>)
    requires Admissible(ttlMs, w, steps)
    ensures Proper(w.sessions, Moves(ttlMs, w, steps))
    ensures Run(ttlMs, w, steps).sessions == AfterAll(w.sessions, Moves(ttlMs, w, steps))
    ensures forall i :: 0 <= i < |Moves(ttlMs, w, steps)| && Moves(ttlMs, w, steps)[i].Opened? ==>
              i < |steps| && steps[i].SignIn? && steps[i].subject == Moves(ttlMs, w, steps)[i].subject
    decreases steps
  {
    if steps != [] {
      var w1 := Next(ttlMs, w, steps[0]);
      assert w1.sessions == After(w.sessions, MoveOf(w, steps[0]));
      hide Next;
      SessionsFollowMoves(ttlMs, w1, steps[1..]);
    }
  }

  lemma {:induction false} RunConcat(ttlMs: int, w: World, a: seq<Step>, b: seq<Step>)
    requires Admissible(ttlMs, w, a + b)
    ensures Admissible(ttlMs, w, a) && Admissible(ttlMs, Run(ttlMs, w, a), b)
    ensures Run(ttlMs, w, a + b) == Run(ttlMs, Run(ttlMs, w, a), b)
    decreases |a|
  {
    if a == [] {
      assert a + b == b;
    } else {
      assert (a + b)[0] == a[0] && (a + b)[1..] == a[1..] + b;
      RunConcat(ttlMs, Next(ttlMs, w, a[0]), a[1..], b);
    }
  }

  lemma {:induction false} RunOne(ttlMs: int, w: World, step: Step)
    requires Admissible(ttlMs, w, [step])
    ensures Enabled(w, step) && Run(ttlMs, w, [step]) == Next(ttlMs, w, step)
  {
    hide Next;
    assert [step][1..] == [];
  }

  lemma RevokingEmpties(ttlMs: int, w: World, pid: Pid)
    requires Enabled(w, RevokeSessions(pid))
    ensures Of(Next(ttlMs, w, RevokeSessions(pid)).sessions, w.redemptions[pid].subject) == {}
  {
  }

  lemma UpdatingKeepsSessions(ttlMs: int, w: World, pid: Pid)
    requires Enabled(w, UpdatePassword(pid))
    ensures Next(ttlMs, w, UpdatePassword(pid)).sessions == w.sessions
  {
  }

  /**
   * What a completed redemption leaves of its subject's sessions: revoking and updating the
   * password are two steps, so exactly those opened in between and not revoked again; none,
   * if nobody signs in as the subject in between.
   */
  lemma {:induction false} RedemptionLeavesExactly(ttlMs: int, w: World, pid: Pid, between: seq<Step>)
    requires Admissible(ttlMs, w, [RevokeSessions(pid)] + between + [UpdatePassword(pid)])
    ensures var subject := w.redemptions[pid].subject;
            var revoked := Next(ttlMs, w, RevokeSessions(pid));
            var end := Run(ttlMs, w, [RevokeSessions(pid)] + between + [UpdatePassword(pid)]);
            && Admissible(ttlMs, revoked, between)
            && Of(end.sessions, subject) == OpenSince({}, Moves(ttlMs, revoked, between), subject)
            && ((forall i :: 0 <= i < |between| && between[i].SignIn? ==> between[i].subject != subject) ==>
                  Of(end.sessions, subject) == {})
  {
    var subject := w.redemptions[pid].subject;
    var revoke, update := RevokeSessions(pid), UpdatePassword(pid);
    RunConcat(ttlMs, w, [revoke] + between, [update]);
    RunConcat(ttlMs, w, [revoke], between);
    RunOne(ttlMs, w, revoke);
    RunOne(ttlMs, Run(ttlMs, w, [revoke] + between), update);
    RevokingEmpties(ttlMs, w, pid);
    UpdatingKeepsSessions(ttlMs, Run(ttlMs, w, [revoke] + between), pid);
    hide Run, Next, Admissible, Enabled, Of, OpenSince, Moves;
    var revoked := Next(ttlMs, w, revoke);
    var moves := Moves(ttlMs, revoked, between);
    SessionsFollowMoves(ttlMs, revoked, between);
    LiveAre(revoked.sessions, moves, subject);
    if forall i :: 0 <= i < |between| && between[i].SignIn? ==> between[i].subject != subject {
      NoneAppears(moves, subject);
    }
  }

  /** So one sign-in between the two steps, with the password about to be replaced, outlives the redemption. */
  lemma {:induction false} SignInBetweenSurvives(ttlMs: int, w: World, pid: Pid, sid: SessionId)
    requires Enabled(w, RevokeSessions(pid)) && sid !in w.sessions
    ensures var subject := w.redemptions[pid].subject;
            var steps := [RevokeSessions(pid)] + [SignIn(sid, subject)] + [UpdatePassword(pid)];
            Admissible(ttlMs, w, steps) && Of(Run(ttlMs, w, steps).sessions, subject) == {sid}
  {
    var subject := w.redemptions[pid].subject;
    var between := [SignIn(sid, subject)];
    var steps := [RevokeSessions(pid)] + between + [UpdatePassword(pid)];
    var w1 := Next(ttlMs, w, steps[0]);
    var w2 := Next(ttlMs, w1, steps[1]);
    assert steps[1..] == between + [UpdatePassword(pid)] && steps[1..][1..] == [UpdatePassword(pid)];
    assert steps[1..][1..][1..] == [];
    assert Enabled(w1, steps[1]) && Enabled(w2, steps[2]);
    assert Admissible(ttlMs, w2, [UpdatePassword(pid)]);
    assert Admissible(ttlMs, w1, steps[1..]);
    RedemptionLeavesExactly(ttlMs, w, pid, between);
    assert between[1..] == [];
    assert Moves(ttlMs, w1, between) == [Opened(sid, subject)] + Moves(ttlMs, w2, []);
    assert [Opened(sid, subject)][1..] == [];
  }

  // ---------------------------------------------------------------------------------------
  // Redemptions that stopped

  /** The log holds an effect of this kind by `pid`. */
  ghost predicate HasConsumed(w: World, pid: Pid) {
    exists i :: 0 <= i < |w.log| && w.log[i].Consumed? && w.log[i].pid == pid
  }

  ghost predicate HasRevoked(w: World, pid: Pid) {
    exists i :: 0 <= i < |w.log| && w.log[i].SessionsRevoked? && w.log[i].pid == pid
  }

  ghost predicate HasUpdated(w: World, pid: Pid) {
    exists i :: 0 <= i < |w.log| && w.log[i].PasswordUpdated? && w.log[i].pid == pid
  }

  /** What a redemption has done so far is what its place in the code says. */
  ghost predicate Placed(w: World, pid: Pid) {
    if pid !in w.redemptions then
      pid !in w.stopped && !HasConsumed(w, pid) && !HasRevoked(w, pid) && !HasUpdated(w, pid)
    else
      var p := w.redemptions[pid];
      && (!p.Failed? ==> (HasConsumed(w, pid) <==> p.Revoking? || p.Updating? || p.Notifying? || p.Succeeded?))
      && (HasRevoked(w, pid) <==> p.Updating? || p.Notifying? || p.Succeeded?)
      && (HasUpdated(w, pid) <==> p.Notifying? || p.Succeeded?)
      && (pid in w.stopped ==> !p.Succeeded? && !p.Failed?)
  }

  /** The log grows by at most one effect, of the redemption that steps. */
  lemma {:induction false} EffectsGrow(w: World, w': World, e: Effect)
    requires w'.log == w.log + [e]
    ensures forall pid :: HasConsumed(w', pid) <==> HasConsumed(w, pid) || (e.Consumed? && e.pid == pid)
    ensures forall pid :: HasRevoked(w', pid) <==> HasRevoked(w, pid) || (e.SessionsRevoked? && e.pid == pid)
    ensures forall pid :: HasUpdated(w', pid) <==> HasUpdated(w, pid) || (e.PasswordUpdated? && e.pid == pid)
  {
    assert w'.log[|w.log|] == e;
    assert forall i :: 0 <= i < |w.log| ==> w'.log[i] == w.log[i];
    assert forall i :: 0 <= i < |w'.log| ==> i < |w.log| || w'.log[i] == e;
  }

  lemma {:induction false} StepKeepsPlaces(ttlMs: int, w: World, step: Step)
    requires Enabled(w, step) && forall pid :: Placed(w, pid)
    ensures forall pid :: Placed(Next(ttlMs, w, step), pid)
  {
    var w' := Next(ttlMs, w, step);
    if |w'.log| == |w.log| + 1 {
      EffectsGrow(w, w', w'.log[|w.log|]);
    } else {
      assert w'.log == w.log;
    }
    forall pid ensures Placed(w', pid) {
      assert Placed(w, pid);
      hide HasConsumed, HasRevoked, HasUpdated;
      EffectsSame(w, w', pid);
    }
  }

  lemma {:induction false} EffectsSame(w: World, w': World, pid: Pid)
    ensures w'.log == w.log ==>
              && (HasConsumed(w', pid) <==> HasConsumed(w, pid)) && (HasRevoked(w', pid) <==> HasRevoked(w, pid))
              && (HasUpdated(w', pid) <==> HasUpdated(w, pid))
  {
  }

  lemma {:induction false} RunKeepsPlaces(ttlMs: int, w: World, steps: seq<Step>)
    requires Admissible(ttlMs, w, steps) && forall pid :: Placed(w, pid)
    ensures forall pid :: Placed(Run(ttlMs, w, steps), pid)
    decreases steps
  {
    if steps != [] {
      StepKeepsPlaces(ttlMs, w, steps[0]);
      hide Next, Enabled, Placed;
      RunKeepsPlaces(ttlMs, Next(ttlMs, w, steps[0]), steps[1..]);
    }
  }

  /**
   * What a redemption leaves behind when something it waits for rejects: the capability is
   * spent exactly if it got past consuming, the sessions are gone exactly if it got past
   * revoking them, and the password is new exactly if it got past updating it.
   */
  lemma {:induction false} StoppedLeavesExactly(ttlMs: int, now: int, steps: seq<Step>, pid: Pid)
    requires Admissible(ttlMs, Initial(now), steps) && pid in Run(ttlMs, Initial(now), steps).stopped
    ensures pid in Run(ttlMs, Initial(now), steps).redemptions
    ensures var w := Run(ttlMs, Initial(now), steps);
            var p := w.redemptions[pid];
            && (HasConsumed(w, pid) <==> p.Revoking? || p.Updating? || p.Notifying?)
            && (HasRevoked(w, pid) <==> p.Updating? || p.Notifying?)
            && (HasUpdated(w, pid) <==> p.Notifying?)
  {
    RunKeepsPlaces(ttlMs, Initial(now), steps);
    assert Placed(Run(ttlMs, Initial(now), steps), pid);
  }

  /** And it stays like that: a redemption that stopped never moves again. */
  lemma {:induction false} StoppedStays(ttlMs: int, w: World, steps: seq<Step>, pid: Pid)
    requires Admissible(ttlMs, w, steps) && pid in w.stopped && pid in w.redemptions
    ensures var w' := Run(ttlMs, w, steps);
            && pid in w'.stopped && pid in w'.redemptions && w'.redemptions[pid] == w.redemptions[pid]
            && (HasConsumed(w', pid) <==> HasConsumed(w, pid)) && (HasRevoked(w', pid) <==> HasRevoked(w, pid))
            && (HasUpdated(w', pid) <==> HasUpdated(w, pid))
    decreases steps
  {
    if steps != [] {
      var w1 := Next(ttlMs, w, steps[0]);
      StoppedStep(ttlMs, w, steps[0], pid);
      hide Next, Enabled, HasConsumed, HasRevoked, HasUpdated;
      StoppedStays(ttlMs, w1, steps[1..], pid);
    }
  }

  lemma {:induction false} StoppedStep(ttlMs: int, w: World, step: Step, pid: Pid)
    requires Enabled(w, step) && pid in w.stopped && pid in w.redemptions
    ensures var w' := Next(ttlMs, w, step);
            && pid in w'.stopped && pid in w'.redemptions && w'.redemptions[pid] == w.redemptions[pid]
            && (HasConsumed(w', pid) <==> HasConsumed(w, pid)) && (HasRevoked(w', pid) <==> HasRevoked(w, pid))
            && (HasUpdated(w', pid) <==> HasUpdated(w, pid))
  {
    var w' := Next(ttlMs, w, step);
    if |w'.log| == |w.log| + 1 {
      EffectsGrow(w, w', w'.log[|w.log|]);
    } else {
      assert w'.log == w.log;
    }
    hide HasConsumed, HasRevoked, HasUpdated;
    EffectsSame(w, w', pid);
  }
}
