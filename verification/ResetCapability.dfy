/** How long an issued password-reset capability can be redeemed, over any run. */
module ResetCapability {
  import opened Wrappers
  import opened ResetStore
  import opened PasswordReset

  /** The step ends the capability: a new one for its subject, a revocation, or its consumption. */
  predicate Ends(w: World, step: Step, r: ResetRecord)
    requires Enabled(w, step)
  {
    || (step.Issue? && step.allowed && step.subject == r.subject)
    || (step.RevokeToken? && step.subject == r.subject)
    || (step.ConsumeToken? && w.redemptions[step.pid].digest == r.digest)
  }

  predicate EndedIn(ttlMs: int, w: World, steps: seq<Step>, r: ResetRecord)
    requires Admissible(ttlMs, w, steps)
    decreases |steps|
  {
    steps != [] && (Ends(w, steps[0], r) || EndedIn(ttlMs, Next(ttlMs, w, steps[0]), steps[1..], r))
  }

  /** Which of the store's operations take the capability `d` away. */
  lemma {:induction false} TakesAway(t: Tables, d: string, subject: string, digest: string, now: int, r: ResetRecord)
    requires Inverse(t)
    ensures d in Revoke(t, subject).byDigest <==> d in t.byDigest && t.byDigest[d].subject != subject
    ensures d in FindLive(t, digest, now).1.byDigest <==>
            d in t.byDigest && (d == digest ==> now < t.byDigest[d].expiresAt)
    ensures d in Consume(t, digest, now).1.byDigest <==> d in t.byDigest && d != digest
    ensures d in Replace(t, r).byDigest <==> d == r.digest || (d in t.byDigest && t.byDigest[d].subject != r.subject)
  {
  }

  lemma {:induction false} StepKeepsCapability(ttlMs: int, w: World, step: Step, r: ResetRecord)
    requires Inv(w) && Enabled(w, step) && r.digest in w.issued && w.issued[r.digest] == r
    ensures var w' := Next(ttlMs, w, step);
            && w.now <= w'.now && r.digest in w'.issued && w'.issued[r.digest] == r
            && (r.digest in w'.tables.byDigest ==> r.digest in w.tables.byDigest && !Ends(w, step, r))
            && (r.digest in w.tables.byDigest && !Ends(w, step, r) && w.now < r.expiresAt ==>
                  r.digest in w'.tables.byDigest)
  {
    assert TablesOk(w);
    hide Inv, FindLive, Consume, Revoke, Replace;
    match step
    case Issue(subject, digest, _) =>
      TakesAway(w.tables, r.digest, subject, "", w.now, ResetRecord(digest, subject, w.now + ttlMs));
    case RevokeToken(subject) => TakesAway(w.tables, r.digest, subject, "", w.now, r);
    case ReadToken(pid, _) => TakesAway(w.tables, r.digest, "", w.redemptions[pid].digest, w.now, r);
    case ConsumeToken(pid) => TakesAway(w.tables, r.digest, "", w.redemptions[pid].digest, w.now, r);
    case _ =>
  }

  lemma {:induction false} RedeemableFrom(ttlMs: int, w: World, steps: seq<Step>, r: ResetRecord)
    requires Inv(w) && Admissible(ttlMs, w, steps) && r.digest in w.issued && w.issued[r.digest] == r
    ensures var w' := Run(ttlMs, w, steps);
            && w.now <= w'.now && r.digest in w'.issued && w'.issued[r.digest] == r
            && FindLive(w'.tables, r.digest, w'.now).0 ==
               if r.digest in w.tables.byDigest && !EndedIn(ttlMs, w, steps, r) && w'.now < r.expiresAt then Some(r)
               else None
    decreases |steps|
  {
    if steps != [] {
      StepKeepsInv(ttlMs, w, steps[0]);
      StepKeepsCapability(ttlMs, w, steps[0], r);
      hide Next, Enabled, Ends, Inv;
      RedeemableFrom(ttlMs, Next(ttlMs, w, steps[0]), steps[1..], r);
    }
  }

  /** Where a redemption of `r` goes, by whether the capability is still there. */
  lemma {:induction false} GoesBy(ttlMs: int, w: World, pid: Pid, r: ResetRecord, there: bool)
    requires Inv(w) && r.digest in w.issued && w.issued[r.digest] == r
    requires FindLive(w.tables, r.digest, w.now).0 == if there then Some(r) else None
    ensures Enabled(w, ConsumeToken(pid)) && w.redemptions[pid].digest == r.digest ==>
              var p := Next(ttlMs, w, ConsumeToken(pid)).redemptions[pid];
              if there then p.Revoking? && p.subject == r.subject else p == Failed(LostRace)
    ensures Enabled(w, ReadToken(pid, true)) && w.redemptions[pid].digest == r.digest ==>
              var p := Next(ttlMs, w, ReadToken(pid, true)).redemptions[pid];
              if there then p == Hashing(r.digest, r) else p == Failed(NotAvailable)
  {
    if pid in w.redemptions {
      assert ProgressOk(w, pid);
    }
    hide FindLive, Remove, Inv, ProgressOk;
  }

  /**
   * A capability that was issued can be redeemed exactly as long as it has not expired, been
   * replaced, revoked or consumed: whoever comes to consume it then goes on to revoke the
   * sessions of its subject, and whoever reads it first finds it.
   */
  lemma {:induction false} RedeemableExactly(ttlMs: int, w: World, subject: string, digest: string, after: seq<Step>,
                                             pid: Pid)
    requires Inv(w) && Enabled(w, Issue(subject, digest, true))
    requires Admissible(ttlMs, Next(ttlMs, w, Issue(subject, digest, true)), after)
    ensures var w1 := Next(ttlMs, w, Issue(subject, digest, true));
            var w' := Run(ttlMs, w1, after);
            var r := ResetRecord(digest, subject, w.now + ttlMs);
            var redeemable := !EndedIn(ttlMs, w1, after, r) && w'.now < w.now + ttlMs;
            && (Enabled(w', ConsumeToken(pid)) && w'.redemptions[pid].digest == digest ==>
                  var p := Next(ttlMs, w', ConsumeToken(pid)).redemptions[pid];
                  if redeemable then p.Revoking? && p.subject == subject else p == Failed(LostRace))
            && (Enabled(w', ReadToken(pid, true)) && w'.redemptions[pid].digest == digest ==>
                  var p := Next(ttlMs, w', ReadToken(pid, true)).redemptions[pid];
                  if redeemable then p == Hashing(digest, r) else p == Failed(NotAvailable))
  {
    var issue := Issue(subject, digest, true);
    var w1 := Next(ttlMs, w, issue);
    var w' := Run(ttlMs, w1, after);
    var r := ResetRecord(digest, subject, w.now + ttlMs);
    StepKeepsInv(ttlMs, w, issue);
    RunKeepsInv(ttlMs, w1, after);
    RedeemableFrom(ttlMs, w1, after, r);
    GoesBy(ttlMs, w', pid, r, !EndedIn(ttlMs, w1, after, r) && w'.now < w.now + ttlMs);
    hide Run, EndedIn, Inv, FindLive;
  }
}
