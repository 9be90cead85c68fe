/**
 * What the engine reports: which failure a read, a sign-in or a rotation comes back with,
 * what a rotation that failed halfway has done, and what ending sessions says it ended.
 */
module SessionErrors {
  import opened Wrappers
  import opened Claims
  import opened SessionStore
  import opened SessionEngine
  import opened SessionRuns
  import opened SessionInvariants
  import opened SessionTheorems
  import opened SlidingWindow

  predicate Idle(cfg: Config, s: Stored, now: int) {
    now - s.lastSeenAt > cfg.idleTtlMs
  }

  /** The store, if there is one, answers the first read of a token. */
  predicate Answering(b: Backend, faults: Faults) {
    b != NoStore ==> ReadTarget !in faults
  }

  /** The record that took over from `s`, if it is still there. */
  function TakenOver(b: Backend, s: Stored): Option<Stored> {
    Read(b, s.supersededBy.GetOr(""))
  }

  /**
   * Why a signed token does not read. It is expired past its absolute lifetime, or when the
   * record it leads to has idled too long; not found when its record has gone; revoked when
   * its session was rotated away and the window has closed or the successor is gone; and
   * each of these only if the store answered. Nothing else is reported of a token of its own.
   */
  lemma {:induction false} ReadErrorsExactly(cfg: Config, w: World, p: Payload, faults: Faults)
    requires Inv(cfg, w) && p in w.tokens
    ensures p.sid.Some? && p.sid.value in w.born
    ensures var id := p.sid.value;
            var read := ReadSession(cfg, w.backend, Signed(p), w.now, faults).0;
            var r := RecordOf(w.backend, p);
            var due := w.now < ExpiryOf(cfg, w, id);
            var found := due && Answering(w.backend, faults) && r.Some?;
            var open := id in w.marks && w.now <= w.marks[id].deadline;
            && (read == ReadFailed(StoreError) <==>
                  || (due && !Answering(w.backend, faults))
                  || (found && open && ReadSuccessor in faults))
            && (read == ReadFailed(SessionNotFound) <==> due && Answering(w.backend, faults) && r.None?)
            && (read == ReadFailed(SessionRevoked) <==>
                  && found && id in w.marks
                  && (!open || (ReadSuccessor !in faults && TakenOver(w.backend, r.value).None?)))
            && (read == ReadFailed(SessionExpired) <==>
                  || !due
                  || (found && id !in w.marks && Idle(cfg, r.value, w.now))
                  || (found && open && ReadSuccessor !in faults && TakenOver(w.backend, r.value).Some?
                      && Idle(cfg, TakenOver(w.backend, r.value).value, w.now)))
            && (read.ReadFailed? ==> read.error in {StoreError, SessionNotFound, SessionRevoked, SessionExpired})
  {
    assert TokenOk(cfg, w, p);
    var id := p.sid.value;
    assert BirthOk(cfg, w, id);
    var r := RecordOf(w.backend, p);
    if r.Some? && w.backend != NoStore {
      assert TrueToBirth(cfg, w, r.value) && LinkOk(w, r.value);
      if TakenOver(w.backend, r.value).Some? {
        assert TrueToBirth(cfg, w, TakenOver(w.backend, r.value).value);
        assert id in w.marks ==> BirthOk(cfg, w, r.value.supersededBy.value);
      }
    }
  }

  /** What is no token of this deployment is told apart from one that is missing. */
  lemma StrangersAreToldApart(cfg: Config, b: Backend, now: int, faults: Faults)
    ensures ReadSession(cfg, b, Absent, now, faults) == (ReadFailed(SessionNotFound), b)
    ensures ReadSession(cfg, b, Unverifiable, now, faults) == (ReadFailed(TokenSignatureMismatch), b)
  {
  }

  /** When a sign-in fails, why, and that nothing came of it. */
  lemma {:induction false} SignInErrorsExactly(cfg: Config, w: World, subject: Subject, claims: ClaimMap, newId: Id,
                                               faults: Faults)
    ensures var (w', r) := Step1(cfg, w, DoIssue(subject, claims, newId, faults));
            r.IssueDone?
            && (r.issue == IssueFailed(InvalidToken(ClaimsToken)) <==> Decode(cfg.shape, claims).None?)
            && (r.issue == IssueFailed(StoreError) <==>
                  Decode(cfg.shape, claims).Some? && w.backend != NoStore && WriteNew in faults)
            && (r.issue.IssueFailed? ==> w' == w && r.issue.error in {StoreError, InvalidToken(ClaimsToken)})
  {
    assert w.tokens + {} == w.tokens;
  }

  /** Why a rotation fails: its read failed, its claims are refused, or one of its store calls was rejected. */
  lemma {:induction false} RotateErrorsExactly(cfg: Config, w: World, token: Presented, changes: Option<ClaimMap>,
                                               newId: Id, faults: Faults)
    requires Reachable(cfg, w) && Enabled(w, DoRotate(token, changes, newId, faults))
    ensures var r := Step1(cfg, w, DoRotate(token, changes, newId, faults)).1;
            var read := ReadSession(cfg, w.backend, token, w.now, faults).0;
            r.IssueDone? &&
            if read.ReadFailed? then r.issue == IssueFailed(read.error)
            else if Decode(cfg.shape, changes.GetOr(read.session.claims)).None?
            then r.issue == IssueFailed(InvalidToken(ClaimsToken))
            else if w.backend != NoStore
                    && (ReadPredecessor in faults || WritePredecessor in faults || WriteNew in faults)
            then r.issue == IssueFailed(StoreError)
            else r.issue.Issued?
  {
    ReachableInv(cfg, w);
    ReadOutcome(cfg, w, token, faults);
    RotateSplits(cfg, w, token, changes, newId, faults);
  }

  /**
   * A rotation that failed only in storing the new record has already marked the old one: the
   * session can no longer be read by tokens of its id, although no new token was given out.
   * One that failed before that leaves the session as it read it.
   */
  lemma {:induction false} HalfRotationExactly(cfg: Config, w: World, token: Presented, changes: Option<ClaimMap>,
                                               newId: Id, faults: Faults, q: Payload)
    requires Inv(cfg, w) && Enabled(w, DoRotate(token, changes, newId, faults))
    requires Step1(cfg, w, DoRotate(token, changes, newId, faults)).1 == IssueDone(IssueFailed(StoreError))
    requires var read := ReadSession(cfg, w.backend, token, w.now, faults).0;
             read.ReadOk? && q in w.tokens && q.sid == Some(read.session.id)
    ensures var w' := Step1(cfg, w, DoRotate(token, changes, newId, faults)).0;
            var before := ReadSession(cfg, w.backend, token, w.now, faults).0.session;
            var after := ReadSession(cfg, w'.backend, Signed(q), w'.now, {}).0;
            if ReadPredecessor !in faults && WritePredecessor !in faults then after == ReadFailed(SessionRevoked)
            else before.id !in w.marks ==> after.ReadOk? && after.session == before
  {
    var step := DoRotate(token, changes, newId, faults);
    var (current, claims) := Rotating(cfg, w, token, changes, faults).value;
    var b1 := ReadSession(cfg, w.backend, token, w.now, faults).1;
    var w1, w' := w.(backend := b1), Step1(cfg, w, step).0;
    ReadOutcome(cfg, w, token, faults);
    RotateSplits(cfg, w, token, changes, newId, faults);
    StepKeepsInv(cfg, w, step);
    if Supersede(cfg, b1, current.id, newId, w.now, faults).0 {
      DecodeIdempotent(cfg.shape, changes.GetOr(current.claims));
      RotateMarks(cfg, w1, current, claims, newId, faults);
      HalfMarked(cfg, w1, current, claims, newId, faults, q);
    } else if current.id !in w.marks {
      StillReads(cfg, w, token, faults, q);
    }
  }

  /** After the mark of a rotation and without its successor, the old token is revoked. */
  lemma {:induction false} HalfMarked(cfg: Config, w: World, current: Session, claims: ClaimMap, newId: Id,
                                      faults: Faults, q: Payload)
    requires Inv(cfg, w) && w.backend != NoStore && Read(w.backend, current.id).Some?
    requires newId !in w.born && newId != ""
    requires Supersede(cfg, w.backend, current.id, newId, w.now, faults).0
    requires q.sid == Some(current.id) && Inv(cfg, AfterMark(cfg, w, current, claims, newId, faults))
    requires q in w.tokens && w.now < ExpiryOf(cfg, w, current.id)
    ensures var w' := AfterMark(cfg, w, current, claims, newId, faults);
            ReadSession(cfg, w'.backend, Signed(q), w'.now, {}).0 == ReadFailed(SessionRevoked)
  {
    var w' := AfterMark(cfg, w, current, claims, newId, faults);
    UnbornUnlisted(cfg, w, newId);
    ReadErrorsExactly(cfg, w', q, {});
    ReadAfterWrite(w.backend, MarkedRecord(cfg, w, Read(w.backend, current.id).value, newId), w.now);
  }

  /** A session that was just read reads again. */
  lemma {:induction false} StillReads(cfg: Config, w: World, token: Presented, faults: Faults, q: Payload)
    requires Inv(cfg, w) && (token.Signed? ==> token.payload in w.tokens)
    requires var read := ReadSession(cfg, w.backend, token, w.now, faults).0;
             read.ReadOk? && q in w.tokens && q.sid == Some(read.session.id) && read.session.id !in w.marks
    requires w.backend != NoStore
    ensures var (read, b) := ReadSession(cfg, w.backend, token, w.now, faults);
            var after := ReadSession(cfg, b, Signed(q), w.now, {}).0;
            after.ReadOk? && after.session == read.session
  {
    LocateLands(cfg, w, token, faults);
    var s := Locate(cfg, w.backend, token, w.now, faults).stored;
    assert TokenOk(cfg, w, q) && BirthOk(cfg, w, s.id) && LinkOk(w, s);
    ReadAfterWrite(w.backend, s.(lastSeenAt := w.now), w.now);
  }

  // ---------------------------------------------------------------------------------------
  // What ending sessions reports

  /** Ending one session says it did exactly when there is a store that took the call, and then the record is gone. */
  lemma {:induction false} EndingIsReported(cfg: Config, w: World, p: Payload, faults: Faults)
    requires Reachable(cfg, w) && p in w.tokens
    ensures p.sid.Some?
    ensures var (w', r) := Step1(cfg, w, DoDestroy(Signed(p), faults));
            && r == DestroyDone(w.backend != NoStore && DestroyTarget !in faults)
            && (r.revoked ==> Read(w'.backend, p.sid.value).None?)
            && (!r.revoked ==> w' == w)
  {
    ReachableInv(cfg, w);
    assert TokenOk(cfg, w, p) && BirthOk(cfg, w, p.sid.value);
    if w.backend != NoStore {
      ReadAfterDestroy(w.backend, p.sid.value, w.now);
    }
  }
}
