/**
 * What becomes of a redemption: one that is refused does nothing at all, and one that gets
 * to the end sets the password it was given and no other.
 */
module ResetOutcome {
  import opened ResetStore
  import opened PasswordReset

  ghost predicate NoEffect(w: World, pid: Pid) {
    !HasConsumed(w, pid) && !HasRevoked(w, pid) && !HasUpdated(w, pid)
  }

  lemma {:induction false} FailedStep(ttlMs: int, w: World, step: Step, pid: Pid)
    requires Enabled(w, step) && pid in w.redemptions && w.redemptions[pid].Failed? && NoEffect(w, pid)
    ensures var w' := Next(ttlMs, w, step);
            pid in w'.redemptions && w'.redemptions[pid] == w.redemptions[pid] && NoEffect(w', pid)
  {
    var w' := Next(ttlMs, w, step);
    if |w'.log| == |w.log| + 1 {
      EffectsGrow(w, w', w'.log[|w.log|]);
    } else {
      assert w'.log == w.log;
      EffectsSame(w, w', pid);
    }
    hide HasConsumed, HasRevoked, HasUpdated;
  }

  /** A redemption that failed moves no more. */
  lemma {:induction false} FailedStays(ttlMs: int, w: World, steps: seq<Step>, pid: Pid)
    requires Admissible(ttlMs, w, steps)
    requires pid in w.redemptions && w.redemptions[pid].Failed? && NoEffect(w, pid)
    ensures var w' := Run(ttlMs, w, steps);
            pid in w'.redemptions && w'.redemptions[pid] == w.redemptions[pid] && NoEffect(w', pid)
    decreases |steps|
  {
    if steps != [] {
      FailedStep(ttlMs, w, steps[0], pid);
      hide Next, Enabled, NoEffect;
      FailedStays(ttlMs, Next(ttlMs, w, steps[0]), steps[1..], pid);
    }
  }

  lemma {:induction false} ReachablePlaced(ttlMs: int, now: int, before: seq<Step>, pid: Pid)
    requires Admissible(ttlMs, Initial(now), before)
    ensures Placed(Run(ttlMs, Initial(now), before), pid)
  {
    RunKeepsPlaces(ttlMs, Initial(now), before);
  }

  /**
   * A redemption beyond its budget, or with a token of the wrong form, touches nothing: no
   * capability, no session and no password, then or ever, and it reports which of the two.
   */
  lemma {:induction false} RefusedAtOnce(ttlMs: int, now: int, before: seq<Step>, pid: Pid, digest: string,
                                         allowed: bool, wellFormed: bool, after: seq<Step>)
    requires Admissible(ttlMs, Initial(now), before) && !(allowed && wellFormed)
    requires var w := Run(ttlMs, Initial(now), before);
             && Enabled(w, Start(pid, digest, allowed, wellFormed))
             && Admissible(ttlMs, Next(ttlMs, w, Start(pid, digest, allowed, wellFormed)), after)
    ensures var w := Run(ttlMs, Initial(now), before);
            var w1 := Next(ttlMs, w, Start(pid, digest, allowed, wellFormed));
            var w' := Run(ttlMs, w1, after);
            && w1.tables == w.tables && w1.sessions == w.sessions
            && pid in w'.redemptions
            && w'.redemptions[pid] == Failed(if allowed then MalformedToken else RateLimited)
            && NoEffect(w', pid)
  {
    var w := Run(ttlMs, Initial(now), before);
    var w1 := Next(ttlMs, w, Start(pid, digest, allowed, wellFormed));
    ReachablePlaced(ttlMs, now, before, pid);
    EffectsSame(w, w1, pid);
    hide Run, HasConsumed, HasRevoked, HasUpdated;
    FailedStays(ttlMs, w1, after, pid);
  }

  /**
   * Neither does one whose new password the policy refuses, or whose capability is not live:
   * every live capability is still there to be redeemed.
   */
  lemma {:induction false} RefusedOnReading(ttlMs: int, now: int, before: seq<Step>, pid: Pid, policyAccepts: bool,
                                            after: seq<Step>, d: string)
    requires Admissible(ttlMs, Initial(now), before)
    requires var w := Run(ttlMs, Initial(now), before);
             && Enabled(w, ReadToken(pid, policyAccepts))
             && !(policyAccepts && FindLive(w.tables, w.redemptions[pid].digest, w.now).0.Some?)
             && Admissible(ttlMs, Next(ttlMs, w, ReadToken(pid, policyAccepts)), after)
    ensures var w := Run(ttlMs, Initial(now), before);
            var w1 := Next(ttlMs, w, ReadToken(pid, policyAccepts));
            var w' := Run(ttlMs, w1, after);
            var live := FindLive(w.tables, w.redemptions[pid].digest, w.now).0.Some?;
            && FindLive(w1.tables, d, w1.now).0 == FindLive(w.tables, d, w.now).0 && w1.sessions == w.sessions
            && pid in w'.redemptions
            && w'.redemptions[pid] == Failed(if live then PolicyRejected else NotAvailable)
            && NoEffect(w', pid)
  {
    var w := Run(ttlMs, Initial(now), before);
    var w1 := Next(ttlMs, w, ReadToken(pid, policyAccepts));
    ReachablePlaced(ttlMs, now, before, pid);
    RunKeepsInv(ttlMs, Initial(now), before);
    assert TablesOk(w);
    EffectsSame(w, w1, pid);
    hide Run, HasConsumed, HasRevoked, HasUpdated, Inv;
    FailedStays(ttlMs, w1, after, pid);
  }

  // ---------------------------------------------------------------------------------------
  // The password that is set

  /** From hashing on, the redemption goes on with this hash, and every update it made was to it. */
  ghost predicate Holds(w: World, pid: Pid, hash: string) {
    && pid in w.redemptions
    && !w.redemptions[pid].Reading? && !w.redemptions[pid].Hashing?
    && (w.redemptions[pid].Consuming? || w.redemptions[pid].Revoking? || w.redemptions[pid].Updating? ==>
          w.redemptions[pid].hash == hash)
    && forall i :: 0 <= i < |w.log| && w.log[i].PasswordUpdated? && w.log[i].pid == pid ==> w.log[i].hash == hash
  }

  lemma {:induction false} StepHolds(ttlMs: int, w: World, step: Step, pid: Pid, hash: string)
    requires Enabled(w, step) && Holds(w, pid, hash)
    ensures Holds(Next(ttlMs, w, step), pid, hash)
  {
    var w' := Next(ttlMs, w, step);
    assert w'.log == w.log || (|w'.log| == |w.log| + 1 && w'.log[..|w.log|] == w.log);
  }

  lemma {:induction false} RunHolds(ttlMs: int, w: World, steps: seq<Step>, pid: Pid, hash: string)
    requires Admissible(ttlMs, w, steps) && Holds(w, pid, hash)
    ensures Holds(Run(ttlMs, w, steps), pid, hash)
    decreases |steps|
  {
    if steps != [] {
      StepHolds(ttlMs, w, steps[0], pid, hash);
      hide Next, Enabled, Holds;
      RunHolds(ttlMs, Next(ttlMs, w, steps[0]), steps[1..], pid, hash);
    }
  }

  /** Whatever is interleaved, a redemption updates the password to the hash it made of the new one. */
  lemma {:induction false} UpdatesToTheNewPassword(ttlMs: int, now: int, before: seq<Step>, pid: Pid, hash: string,
                                                   after: seq<Step>, i: nat)
    requires Admissible(ttlMs, Initial(now), before)
    requires var w := Run(ttlMs, Initial(now), before);
             Enabled(w, Hashed(pid, hash)) && Admissible(ttlMs, Next(ttlMs, w, Hashed(pid, hash)), after)
    requires var w' := Run(ttlMs, Next(ttlMs, Run(ttlMs, Initial(now), before), Hashed(pid, hash)), after);
             i < |w'.log| && w'.log[i].PasswordUpdated? && w'.log[i].pid == pid
    ensures var w' := Run(ttlMs, Next(ttlMs, Run(ttlMs, Initial(now), before), Hashed(pid, hash)), after);
            w'.log[i].hash == hash
  {
    var w := Run(ttlMs, Initial(now), before);
    ReachablePlaced(ttlMs, now, before, pid);
    hide Run;
    RunHolds(ttlMs, Next(ttlMs, w, Hashed(pid, hash)), after, pid, hash);
  }

  /** A redemption that something rejected is over: whatever comes later, it stands where it stood. */
  lemma {:induction false} RejectedIsOver(ttlMs: int, w: World, pid: Pid, after: seq<Step>)
    requires Enabled(w, Rejects(pid)) && Admissible(ttlMs, Next(ttlMs, w, Rejects(pid)), after)
    ensures var w' := Run(ttlMs, Next(ttlMs, w, Rejects(pid)), after);
            && !Underway(w', pid) && pid in w'.redemptions && w'.redemptions[pid] == w.redemptions[pid]
            && (HasConsumed(w', pid) <==> HasConsumed(w, pid)) && (HasRevoked(w', pid) <==> HasRevoked(w, pid))
            && (HasUpdated(w', pid) <==> HasUpdated(w, pid))
  {
    StoppedStays(ttlMs, Next(ttlMs, w, Rejects(pid)), after, pid);
    hide Run;
  }
}
