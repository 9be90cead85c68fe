/**
 * Why the store's time to live has to reach the absolute session lifetime: with a shorter
 * one records vanish early, and an index entry, which a known id never refreshes, can be
 * gone while a session it listed is still being kept alive by reads.
 */
module StoreLifetime {
  import opened Wrappers
  import opened Claims
  import opened TtlStorage
  import opened SessionStore
  import opened SessionEngine
  import opened SessionRuns
  import opened SessionTheorems

  /** A fresh deployment on the storage-backed store, with any positive time to live. */
  ghost predicate FreshIndexed(cfg: Config, w: World) {
    && ValidConfig(cfg)
    && w.tokens == {} && w.born == map[] && w.marks == map[]
    && w.backend.Indexed? && w.backend.sessions == map[] && w.backend.subjects == map[]
    && 0 < w.backend.ttlMs
  }

  /** No token signed along a run without destroys and store failures ever reads as unknown. */
  ghost predicate NeverForgets(cfg: Config, w0: World) {
    forall steps, p :: Admissible(cfg, w0, steps) && Quiet(steps) && p in Run(cfg, w0, steps).tokens ==>
      ReadSession(cfg, Run(cfg, w0, steps).backend, Signed(p), Run(cfg, w0, steps).now, {}).0
      != ReadFailed(SessionNotFound)
  }

  function SignIn(subject: Subject, claims: ClaimMap, id: Id): Step {
    DoIssue(subject, claims, id, {})
  }

  function NewRecord(cfg: Config, subject: Subject, claims: ClaimMap, id: Id, now: int): Stored
    requires Decode(cfg.shape, claims).Some?
  {
    Stored(id, subject, Decode(cfg.shape, claims).value, now, now, now + cfg.absoluteTtlMs, None, None)
  }

  lemma {:induction false} AfterSignIn(cfg: Config, w0: World, subject: Subject, claims: ClaimMap, id: Id)
    requires FreshIndexed(cfg, w0) && Decode(cfg.shape, claims).Some? && id != ""
    ensures var w := Step1(cfg, w0, SignIn(subject, claims, id)).0;
            var s := NewRecord(cfg, subject, claims, id, w0.now);
            && Enabled(w0, SignIn(subject, claims, id))
            && w.now == w0.now && w.tokens == {Encode(cfg, s)}
            && w.backend == Indexed(map[id := Entry(s, Some(w0.now + w0.backend.ttlMs))],
                                    map[subject := Entry([id], Some(w0.now + w0.backend.ttlMs))], w0.backend.ttlMs)
  {
    assert [] + [id] == [id];
    assert w0.backend.subjects[subject := Entry([] + [id], Some(w0.now + w0.backend.ttlMs))]
           == map[subject := Entry([id], Some(w0.now + w0.backend.ttlMs))];
  }

  /** Waiting out a time to live shorter than the session makes its token unknown. */
  lemma {:induction false} ShorterTtlForgets(cfg: Config, w0: World, subject: Subject, claims: ClaimMap, id: Id)
    requires FreshIndexed(cfg, w0) && Decode(cfg.shape, claims).Some? && id != ""
    requires w0.backend.ttlMs < cfg.absoluteTtlMs
    ensures !NeverForgets(cfg, w0)
  {
    AfterSignIn(cfg, w0, subject, claims, id);
    var issue, wait := SignIn(subject, claims, id), Tick(w0.backend.ttlMs);
    var w1 := Step1(cfg, w0, issue).0;
    var w2 := Step1(cfg, w1, wait).0;
    var steps := [issue, wait];
    StepsFirst(cfg, w0, issue, [wait]);
    StepsFirst(cfg, w1, wait, []);
    assert [issue] + [wait] == steps && [wait] + [] == [wait];
    var p := Encode(cfg, NewRecord(cfg, subject, claims, id, w0.now));
    assert p in w2.tokens;
    assert Read(w2.backend, id).None?;
    assert ReadSession(cfg, w2.backend, Signed(p), w2.now, {}).0 == ReadFailed(SessionNotFound);
  }

  /** The wiring is exact: sessions are never forgotten if and only if the store outlives them. */
  lemma {:induction false} NeverForgetsExactly(cfg: Config, w0: World, subject: Subject, claims: ClaimMap, id: Id)
    requires FreshIndexed(cfg, w0) && Decode(cfg.shape, claims).Some? && id != ""
    ensures NeverForgets(cfg, w0) <==> cfg.absoluteTtlMs <= w0.backend.ttlMs
  {
    if w0.backend.ttlMs < cfg.absoluteTtlMs {
      ShorterTtlForgets(cfg, w0, subject, claims, id);
    } else {
      forall steps, p | Admissible(cfg, w0, steps) && Quiet(steps) && p in Run(cfg, w0, steps).tokens
        ensures ReadSession(cfg, Run(cfg, w0, steps).backend, Signed(p), Run(cfg, w0, steps).now, {}).0
                != ReadFailed(SessionNotFound)
      {
        IssuedTokensAreNeverUnknown(cfg, w0, steps, p);
      }
    }
  }

  /**
   * A read refreshes a record but not its index entry: with a shorter time to live, a
   * session read once in between outlives its index entry, and ending all sessions of the
   * subject then leaves it alive.
   */
  lemma ShorterTtlLosesTheIndex(cfg: Config, w0: World, subject: Subject, claims: ClaimMap, id: Id, pause: nat)
    requires FreshIndexed(cfg, w0) && cfg.strategy.Stateful?
    requires Decode(cfg.shape, claims).Some? && id != ""
    requires var ttl := w0.backend.ttlMs;
             ttl < cfg.absoluteTtlMs && 0 < pause < ttl && cfg.renewAfterMs <= pause <= cfg.idleTtlMs
             && ttl - pause <= cfg.idleTtlMs
    ensures var p := Encode(cfg, NewRecord(cfg, subject, claims, id, w0.now));
            var steps := [SignIn(subject, claims, id), Tick(pause), DoRead(Signed(p), {}),
                          Tick(w0.backend.ttlMs - pause), DoDestroyAll(subject, {})];
            && Admissible(cfg, w0, steps)
            && var w := Run(cfg, w0, steps);
               p in w.tokens && ReadSession(cfg, w.backend, Signed(p), w.now, {}).0.ReadOk?
  {
    AfterSignIn(cfg, w0, subject, claims, id);
    var ttl := w0.backend.ttlMs;
    var s := NewRecord(cfg, subject, claims, id, w0.now);
    DecodeIdempotent(cfg.shape, claims);
    var p := Encode(cfg, s);
    var s1, s2, s3, s4, s5 := SignIn(subject, claims, id), Tick(pause), DoRead(Signed(p), {}), Tick(ttl - pause),
      DoDestroyAll(subject, {});
    var w1 := Step1(cfg, w0, s1).0;
    var w2 := Step1(cfg, w1, s2).0;
    assert w2.backend == w1.backend;
    KeptAlive(cfg, w2.backend, s, w2.now);
    var w3 := Step1(cfg, w2, s3).0;
    var w4 := Step1(cfg, w3, s4).0;
    var touched := s.(lastSeenAt := w2.now);
    assert w4.backend == Indexed(map[id := Entry(touched, Some(w2.now + ttl))], map[], ttl);
    var w5 := Step1(cfg, w4, s5).0;
    assert w5.backend.sessions == w4.backend.sessions;
    assert Read(w5.backend, id) == Some(touched);
    FiveSteps(cfg, w0, s1, s2, s3, s4, s5);
  }

  /** Reading a lone record that is due for renewal stores it anew and leaves the index alone. */
  lemma KeptAlive(cfg: Config, b: Backend, s: Stored, now: int)
    requires cfg.strategy.Stateful? && b.Indexed? && 0 < b.ttlMs && s.id != ""
    requires s.id in b.sessions && b.sessions[s.id].value == s && s.subject in b.subjects &&
             s.id in b.subjects[s.subject].value
    requires s.supersededAt.None? && Decode(cfg.shape, s.claims).Some?
    requires now < s.absoluteExpiresAt && cfg.renewAfterMs <= now - s.lastSeenAt <= cfg.idleTtlMs
    ensures var (r, b') := ReadSession(cfg, b, Signed(Encode(cfg, s)), now, {});
            r.ReadOk? && r.renewed.None?
            && b' == b.(sessions := b.sessions[s.id := Entry(s.(lastSeenAt := now), Some(now + b.ttlMs))])
  {
  }

  lemma {:induction false} StepsFirst(cfg: Config, w: World, step: Step, rest: seq<Step>)
    ensures var w' := Step1(cfg, w, step).0;
            && Run(cfg, w, [step] + rest) == Run(cfg, w', rest)
            && (Admissible(cfg, w, [step] + rest) <==> Enabled(w, step) && Admissible(cfg, w', rest))
    ensures forall v {:trigger Run(cfg, v, [])} {:trigger Admissible(cfg, v, [])} ::
              Run(cfg, v, []) == v && Admissible(cfg, v, [])
    ensures rest == [] ==> Run(cfg, w, [step]) == Step1(cfg, w, step).0
  {
    hide Step1, Enabled;
    var steps := [step] + rest;
    assert steps[0] == step && steps[1..] == rest;
    assert rest == [] ==> [step] == steps;
  }

  lemma {:induction false} FiveSteps(cfg: Config, w: World, s1: Step, s2: Step, s3: Step, s4: Step, s5: Step)
    ensures var w1 := Step1(cfg, w, s1).0;
            var w2 := Step1(cfg, w1, s2).0;
            var w3 := Step1(cfg, w2, s3).0;
            var w4 := Step1(cfg, w3, s4).0;
            && Run(cfg, w, [s1, s2, s3, s4, s5]) == Step1(cfg, w4, s5).0
            && (Admissible(cfg, w, [s1, s2, s3, s4, s5]) <==>
                Enabled(w, s1) && Enabled(w1, s2) && Enabled(w2, s3) && Enabled(w3, s4) && Enabled(w4, s5))
  {
    hide Step1, Enabled, Run, Admissible;
    var w1 := Step1(cfg, w, s1).0;
    var w2 := Step1(cfg, w1, s2).0;
    var w3 := Step1(cfg, w2, s3).0;
    var w4 := Step1(cfg, w3, s4).0;
    StepsFirst(cfg, w, s1, [s2, s3, s4, s5]);
    StepsFirst(cfg, w1, s2, [s3, s4, s5]);
    StepsFirst(cfg, w2, s3, [s4, s5]);
    StepsFirst(cfg, w3, s4, [s5]);
    StepsFirst(cfg, w4, s5, []);
    assert [s1] + [s2, s3, s4, s5] == [s1, s2, s3, s4, s5];
    assert [s2] + [s3, s4, s5] == [s2, s3, s4, s5];
    assert [s3] + [s4, s5] == [s3, s4, s5];
    assert [s4] + [s5] == [s4, s5];
    assert [s5] + [] == [s5];
  }
}
