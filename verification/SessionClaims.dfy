/**
 * Which claims a session carries: the ones it was signed in with until a rotation replaces
 * them, and then the ones that rotation was given, seen through the tokens that clients hbefore.
 */
module SessionClaims {
  import opened Wrappers
  import opened Claims
  import opened SessionStore
  import opened SessionEngine
  import opened SessionRuns
  import opened SessionInvariants
  import opened SessionTheorems

  /** What reading `token` answers in `w`. */
  ghost function Answers(cfg: Config, w: World, token: Presented, faults: Faults): ReadResult {
    ReadSession(cfg, w.backend, token, w.now, faults).0
  }

  /** A session id stands for one subject, one set of claims and one lifetime. */
  lemma ReadIsBorn(cfg: Config, w: World, token: Presented, faults: Faults)
    requires Inv(cfg, w) && (token.Signed? ==> token.payload in w.tokens)
    requires Answers(cfg, w, token, faults).ReadOk?
    ensures var s := Answers(cfg, w, token, faults).session;
            && s.id in w.born && s.subject == w.born[s.id].subject && s.claims == w.born[s.id].claims
            && s.createdAt == w.born[s.id].root && s.absoluteExpiresAt == ExpiryOf(cfg, w, s.id)
  {
    ReadOutcome(cfg, w, token, faults);
  }

  /** A token just signed for a record that is stored reads as that record. */
  lemma FreshReads(cfg: Config, w: World, s: Stored)
    requires ValidConfig(cfg) && (cfg.strategy.Stateful? ==> w.backend != NoStore)
    requires s.id != "" && s.supersededAt.None? && s.supersededBy.None?
    requires s.lastSeenAt == w.now < s.absoluteExpiresAt && Decode(cfg.shape, s.claims) == Some(s.claims)
    requires w.backend != NoStore ==> Read(w.backend, s.id) == Some(s)
    ensures var read := Answers(cfg, w, Signed(Encode(cfg, s)), {});
            read.ReadOk? && read.session == ToSession(s, s.claims)
  {
  }

  /** Reading the token of a sign-in gives the new session, with nothing but the decoded claims asked for. */
  lemma {:induction false} SignedInClaims(cfg: Config, w: World, subject: Subject, claims: ClaimMap, newId: Id,
                                          faults: Faults)
    requires Reachable(cfg, w) && newId !in w.born && newId != ""
    ensures var (w', r) := Step1(cfg, w, DoIssue(subject, claims, newId, faults));
            r.IssueDone? && (r.issue.Issued? ==>
              var read := Answers(cfg, w', Signed(r.issue.token), {});
              && Decode(cfg.shape, claims).Some? && read.ReadOk? && read.session == r.issue.session
              && read.session == Session(newId, subject, Decode(cfg.shape, claims).value, w.now, w.now,
                                         w.now + cfg.absoluteTtlMs))
  {
    ReachableInv(cfg, w);
    var (w', r) := Step1(cfg, w, DoIssue(subject, claims, newId, faults));
    if r.issue.Issued? {
      DecodeIdempotent(cfg.shape, claims);
      var s := Stored(newId, subject, Decode(cfg.shape, claims).value, w.now, w.now, w.now + cfg.absoluteTtlMs, None,
                      None);
      if w.backend != NoStore {
        ReadAfterWrite(w.backend, s, w.now);
      }
      FreshReads(cfg, w', s);
    }
  }

  /**
   * Reading the token of a rotation gives the session that went before, under the new id and
   * with the decoding of the changes given, or of the claims it had when none are given.
   */
  lemma {:induction false} RotatedClaims(cfg: Config, w: World, token: Presented, changes: Option<ClaimMap>,
                                         newId: Id, faults: Faults)
    requires Reachable(cfg, w) && Enabled(w, DoRotate(token, changes, newId, faults))
    ensures var (w', r) := Step1(cfg, w, DoRotate(token, changes, newId, faults));
            r.IssueDone? && (r.issue.Issued? ==>
              var before := Answers(cfg, w, token, faults);
              && before.ReadOk?
              && var carried := Decode(cfg.shape, changes.GetOr(before.session.claims));
                 var read := Answers(cfg, w', Signed(r.issue.token), {});
                 && carried.Some? && (changes.None? ==> carried.value == before.session.claims)
                 && read.ReadOk? && read.session == r.issue.session
                 && read.session == before.session.(id := newId, claims := carried.value, lastSeenAt := w.now))
  {
    ReachableInv(cfg, w);
    var (w', r) := Step1(cfg, w, DoRotate(token, changes, newId, faults));
    RotateSplits(cfg, w, token, changes, newId, faults);
    if r.issue.Issued? {
      ReadOutcome(cfg, w, token, faults);
      var (current, claims) := Rotating(cfg, w, token, changes, faults).value;
      DecodeIdempotent(cfg.shape, changes.GetOr(current.claims));
      var w1 := w.(backend := ReadSession(cfg, w.backend, token, w.now, faults).1);
      var w2 := AfterMark(cfg, w1, current, claims, newId, faults);
      var s := SuccessorOf(current, claims, newId, w.now);
      RotateMarks(cfg, w1, current, claims, newId, faults);
      if w.backend != NoStore {
        ReadAfterWrite(w2.backend, s, w.now);
      }
      FreshReads(cfg, w', s);
    }
  }

  /**
   * Two successful reads that name the same session, however far apart, agree on its subject,
   * its claims and its lifetime: only a rotation changes claims, and it changes the id too.
   */
  lemma {:induction false} SameIdSameClaims(cfg: Config, w: World, token: Presented, faults: Faults, after: seq<Step>,
                                            later: Presented, laterFaults: Faults)
    requires Inv(cfg, w) && (token.Signed? ==> token.payload in w.tokens) && Admissible(cfg, w, after)
    requires later.Signed? ==> later.payload in Run(cfg, w, after).tokens
    ensures var first, second := Answers(cfg, w, token, faults), Answers(cfg, Run(cfg, w, after), later, laterFaults);
            first.ReadOk? && second.ReadOk? && first.session.id == second.session.id ==>
              second.session == first.session.(lastSeenAt := second.session.lastSeenAt)
  {
    RunKeepsInv(cfg, w, after);
    RunGrows(cfg, w, after);
    hide Inv, ReadSession, Run, Admissible;
    if Answers(cfg, w, token, faults).ReadOk? {
      ReadIsBorn(cfg, w, token, faults);
    }
    if Answers(cfg, Run(cfg, w, after), later, laterFaults).ReadOk? {
      ReadIsBorn(cfg, Run(cfg, w, after), later, laterFaults);
    }
  }

  /**
   * The claims a rotation was given last until the next one: in every later run, every read
   * that names the new session returns them, and the token the rotation returned goes on
   * naming that session until it is rotated away in its turn.
   */
  lemma {:induction false} RotatedClaimsLast(cfg: Config, w: World, token: Presented, changes: Option<ClaimMap>,
                                             newId: Id, faults: Faults, after: seq<Step>, later: Presented,
                                             laterFaults: Faults)
    requires Reachable(cfg, w) && Enabled(w, DoRotate(token, changes, newId, faults))
    requires var (w', r) := Step1(cfg, w, DoRotate(token, changes, newId, faults));
             && r.IssueDone? && r.issue.Issued? && Admissible(cfg, w', after)
             && (later.Signed? ==> later.payload in Run(cfg, w', after).tokens)
    ensures var (w', r) := Step1(cfg, w, DoRotate(token, changes, newId, faults));
            var before := Answers(cfg, w, token, faults);
            var end := Run(cfg, w', after);
            var read := Answers(cfg, end, later, laterFaults);
            && before.ReadOk?
            && (read.ReadOk? && read.session.id == newId ==>
                  Some(read.session.claims) == Decode(cfg.shape, changes.GetOr(before.session.claims)))
            && (read.ReadOk? && later == Signed(r.issue.token) && newId !in end.marks ==> read.session.id == newId)
  {
    var step := DoRotate(token, changes, newId, faults);
    var (w', r) := Step1(cfg, w, step);
    var end := Run(cfg, w', after);
    ReachableInv(cfg, w);
    RotatedClaims(cfg, w, token, changes, newId, faults);
    StepKeepsInv(cfg, w, step);
    RunKeepsInv(cfg, w', after);
    RunGrows(cfg, w', after);
    NewTokenIsHeld(cfg, w, token, changes, newId, faults);
    SameIdSameClaims(cfg, w', Signed(r.issue.token), {}, after, later, laterFaults);
    if Answers(cfg, end, later, laterFaults).ReadOk? && later == Signed(r.issue.token) {
      LocateLands(cfg, end, later, laterFaults);
    }
  }

  lemma NewTokenIsHeld(cfg: Config, w: World, token: Presented, changes: Option<ClaimMap>, newId: Id, faults: Faults)
    requires Inv(cfg, w) && Enabled(w, DoRotate(token, changes, newId, faults))
    ensures var (w', r) := Step1(cfg, w, DoRotate(token, changes, newId, faults));
            r.IssueDone? && (r.issue.Issued? ==> r.issue.token in w'.tokens && r.issue.token.sid == Some(newId))
  {
    RotateSplits(cfg, w, token, changes, newId, faults);
  }
}
