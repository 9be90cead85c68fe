/**
 * What ending a session ends. A session changes its id with every rotation, so it is the
 * whole family of ids that descend from one sign-in; ending it removes one record.
 */
module SessionFamilies {
  import opened Wrappers
  import opened Claims
  import opened SessionStore
  import opened SessionEngine
  import opened SessionRuns
  import opened SessionInvariants
  import opened SessionTheorems

  // ---------------------------------------------------------------------------------------
  // Families

  /** The sign-in an id descends from. */
  ghost function RootOf(w: World, id: Id): Id
    requires id in w.born
    decreases w.born[id].depth
  {
    var birth := w.born[id];
    if birth.parent.Some? && birth.parent.value in w.born && w.born[birth.parent.value].depth < birth.depth
    then RootOf(w, birth.parent.value)
    else id
  }

  ghost predicate InFamily(w: World, root: Id, id: Id) {
    id in w.born && RootOf(w, id) == root
  }

  /** The root is a sign-in of the same subject, at the creation time of the session. */
  lemma {:induction false} RootIsSignIn(cfg: Config, w: World, id: Id)
    requires Inv(cfg, w) && id in w.born
    ensures var root := RootOf(w, id);
            root in w.born && w.born[root].parent.None? && w.born[root].at == w.born[id].root
            && w.born[root].root == w.born[id].root && w.born[root].subject == w.born[id].subject
    decreases w.born[id].depth
  {
    assert BirthOk(cfg, w, id);
    if w.born[id].parent.Some? {
      RootIsSignIn(cfg, w, w.born[id].parent.value);
    }
  }

  lemma {:induction false} RootKept(cfg: Config, w: World, w': World, id: Id)
    requires Inv(cfg, w) && id in w.born
    requires forall x :: x in w.born ==> x in w'.born && w'.born[x] == w.born[x]
    ensures RootOf(w', id) == RootOf(w, id)
    decreases w.born[id].depth
  {
    assert BirthOk(cfg, w, id);
    if w.born[id].parent.Some? {
      RootKept(cfg, w, w', w.born[id].parent.value);
    }
  }

  lemma {:induction false} ChildRoot(cfg: Config, w: World, id: Id)
    requires Inv(cfg, w) && id in w.born && w.born[id].parent.Some?
    ensures w.born[id].parent.value in w.born && RootOf(w, id) == RootOf(w, w.born[id].parent.value)
  {
    assert BirthOk(cfg, w, id);
  }

  // ---------------------------------------------------------------------------------------
  // Closed records

  ghost predicate Idle(cfg: Config, s: Stored, now: int) {
    now - s.lastSeenAt > cfg.idleTtlMs
  }

  /**
   * The record of `id`, if there is one, carries no session any more: it is past its absolute
   * expiry; or it was not rotated away and has idled out; or it was, and its window is over,
   * or its successor is gone or has idled out.
   */
  ghost predicate Closed(cfg: Config, b: Backend, now: int, id: Id) {
    Read(b, id).Some? ==>
      var s := Read(b, id).value;
      || s.absoluteExpiresAt <= now
      || (s.supersededAt.None? && Idle(cfg, s, now))
      || (s.supersededAt.Some? &&
            (now > s.supersededAt.value || s.supersededBy.None? || Read(b, s.supersededBy.value).None?
             || Idle(cfg, Read(b, s.supersededBy.value).value, now)))
  }

  ghost predicate FamilyClosed(cfg: Config, w: World, root: Id) {
    forall id {:trigger InFamily(w, root, id)} :: InFamily(w, root, id) ==> Closed(cfg, w.backend, w.now, id)
  }

  /** A token that names a closed id fails. */
  lemma {:induction false} ClosedFails(cfg: Config, w: World, p: Payload, faults: Faults)
    requires Inv(cfg, w) && w.backend != NoStore && p in w.tokens
    requires p.sid.Some? && Closed(cfg, w.backend, w.now, p.sid.value)
    ensures ReadSession(cfg, w.backend, Signed(p), w.now, faults).0.ReadFailed?
  {
    assert TokenOk(cfg, w, p);
  }

  /** A token that names an open id is read. */
  lemma {:induction false} OpenReads(cfg: Config, w: World, p: Payload)
    requires Inv(cfg, w) && w.backend != NoStore && p in w.tokens
    requires p.sid.Some? && !Closed(cfg, w.backend, w.now, p.sid.value)
    ensures ReadSession(cfg, w.backend, Signed(p), w.now, {}).0.ReadOk?
  {
    assert TokenOk(cfg, w, p);
    var id := p.sid.value;
    var s := Read(w.backend, id).value;
    assert s.id == id && TrueToBirth(cfg, w, s) && LinkOk(w, s) && BirthOk(cfg, w, id);
    assert p.aex == Some(s.absoluteExpiresAt);
    if s.supersededAt.Some? {
      var next := s.supersededBy.value;
      var t := Read(w.backend, next).value;
      assert t.id == next && TrueToBirth(cfg, w, t) && BirthOk(cfg, w, next);
      assert Locate(cfg, w.backend, Signed(p), w.now, {}) == Landed(t, Some(Encode(cfg, t)));
    } else {
      assert Locate(cfg, w.backend, Signed(p), w.now, {}) == Landed(s, None);
    }
  }

  // ---------------------------------------------------------------------------------------
  // A closed family stays closed

  /** The step leaves the family's records alone, except for removing some, and adds no member. */
  ghost predicate LeavesFamily(w: World, w': World, root: Id) {
    && (forall id :: InFamily(w, root, id) && Read(w'.backend, id).Some? ==>
          Read(w'.backend, id) == Read(w.backend, id))
    && (forall id :: id in w'.born && id !in w.born ==> RootOf(w', id) != root)
  }

  /** A successful read goes by an open record of the family it returns a session of, and touches only that session. */
  lemma {:induction false} ReadTouches(cfg: Config, w: World, token: Presented, faults: Faults)
    requires Inv(cfg, w) && w.backend != NoStore
    requires token.Signed? ==> token.payload in w.tokens
    ensures var (r, b) := ReadSession(cfg, w.backend, token, w.now, faults);
            && (r.ReadFailed? ==> b == w.backend)
            && (r.ReadOk? ==>
                  && token.Signed? && token.payload.sid.Some? && token.payload.sid.value in w.born
                  && !Closed(cfg, w.backend, w.now, token.payload.sid.value)
                  && r.session.id in w.born
                  && RootOf(w, r.session.id) == RootOf(w, token.payload.sid.value)
                  && forall id :: id != r.session.id ==> Read(b, id) == Read(w.backend, id))
  {
    var r := ReadSession(cfg, w.backend, token, w.now, faults).0;
    if r.ReadOk? {
      LocateLands(cfg, w, token, faults);
      var l := Locate(cfg, w.backend, token, w.now, faults);
      ReadAfterWrite(w.backend, l.stored.(lastSeenAt := w.now), w.now);
      if l.renewed.Some? {
        ChildRoot(cfg, w, l.stored.id);
      }
      if Closed(cfg, w.backend, w.now, token.payload.sid.value) {
        ClosedFails(cfg, w, token.payload, faults);
      }
    }
  }

  lemma {:induction false} IssueLeavesFamily(cfg: Config, w: World, step: Step, root: Id)
    requires Inv(cfg, w) && Enabled(w, step) && step.DoIssue? && w.backend != NoStore && root in w.born
    ensures LeavesFamily(w, Step1(cfg, w, step).0, root)
  {
    var decoded := Decode(cfg.shape, step.claims);
    if decoded.Some? {
      ReadAfterWrite(w.backend, Stored(step.newId, step.subject, decoded.value, w.now, w.now,
                                       w.now + cfg.absoluteTtlMs, None, None), w.now);
    }
  }

  /** A rotation that reads ok touches its session and the new record, and draws at most a child of the session. */
  lemma {:induction false} RotationTouches(cfg: Config, w: World, step: Step)
    requires Inv(cfg, w) && Enabled(w, step) && step.DoRotate? && w.backend != NoStore
    ensures var w' := Step1(cfg, w, step).0;
            var r := ReadSession(cfg, w.backend, step.token, w.now, step.faults).0;
            && (r.ReadFailed? ==> w'.born == w.born && w'.backend == w.backend)
            && (r.ReadOk? ==>
                  && (forall id :: id != step.newId && id != r.session.id ==>
                        Read(w'.backend, id) == Read(w.backend, id))
                  && (w'.born == w.born || (r.session.id in w.born && BornOf(w, w', r.session.id, step.newId))))
  {
    ReadTouches(cfg, w, step.token, step.faults);
    ReadOutcome(cfg, w, step.token, step.faults);
    RotateSplits(cfg, w, step.token, step.changes, step.newId, step.faults);
    var b1 := ReadSession(cfg, w.backend, step.token, w.now, step.faults).1;
    var going := Rotating(cfg, w, step.token, step.changes, step.faults);
    hide Step1, ReadSession, Rotating, Closed, RootOf, Supersede, IssueFrom;
    if going.Some? {
      var (current, claims) := going.value;
      RotateTouches(cfg, b1, current, claims, step.newId, w.now, step.faults);
    }
  }

  /** `newId` is the one birth of the step, a child of `parent`. */
  ghost predicate BornOf(w: World, w': World, parent: Id, newId: Id)
    requires parent in w.born
  {
    && newId in w'.born && w'.born == w.born[newId := w'.born[newId]]
    && w'.born[newId].parent == Some(parent) && w'.born[newId].depth == w.born[parent].depth + 1
  }

  lemma {:induction false} RotateLeavesFamily(cfg: Config, w: World, step: Step, root: Id)
    requires Inv(cfg, w) && Enabled(w, step) && step.DoRotate? && w.backend != NoStore
    requires root in w.born && FamilyClosed(cfg, w, root)
    ensures LeavesFamily(w, Step1(cfg, w, step).0, root)
  {
    ReadTouches(cfg, w, step.token, step.faults);
    RotationTouches(cfg, w, step);
    var w' := Step1(cfg, w, step).0;
    var r := ReadSession(cfg, w.backend, step.token, w.now, step.faults).0;
    hide Step1, ReadSession, Closed, Inv, RootOf;
    if r.ReadOk? {
      assert !InFamily(w, root, step.token.payload.sid.value);
      if w'.born != w.born {
        NewRoot(cfg, w, w', r.session.id, step.newId);
      }
    }
  }

  lemma {:induction false} NewRoot(cfg: Config, w: World, w': World, parent: Id, newId: Id)
    requires Inv(cfg, w) && parent in w.born && newId !in w.born
    requires BornOf(w, w', parent, newId)
    ensures RootOf(w', newId) == RootOf(w, parent)
  {
    RootKept(cfg, w, w', parent);
  }

  /** Marking and issuing touch the record rotated away and the new one. */
  lemma {:induction false} RotateTouches(cfg: Config, b: Backend, current: Session, claims: ClaimMap, newId: Id,
                                         now: int, faults: Faults)
    requires b != NoStore && (b.Indexed? ==> 0 < b.ttlMs)
    requires Read(b, current.id).Some? && Read(b, current.id).value.id == current.id
    ensures var marked := Supersede(cfg, b, current.id, newId, now, faults).1;
            var b' := IssueFrom(cfg, marked, SuccessorOf(current, claims, newId, now), claims, now, faults).1;
            forall id :: id != newId && id != current.id ==>
              Read(marked, id) == Read(b, id) && Read(b', id) == Read(b, id)
  {
    var marked := Supersede(cfg, b, current.id, newId, now, faults);
    var s := Read(b, current.id).value;
    ReadAfterWrite(b, s.(supersededAt := Some(now + cfg.rotationOverlapMs), supersededBy := Some(newId)), now);
    ReadAfterWrite(marked.1, SuccessorOf(current, claims, newId, now), now);
  }

  lemma {:induction false} StepLeavesFamily(cfg: Config, w: World, step: Step, root: Id)
    requires Inv(cfg, w) && Enabled(w, step) && w.backend != NoStore
    requires root in w.born && FamilyClosed(cfg, w, root)
    ensures LeavesFamily(w, Step1(cfg, w, step).0, root)
  {
    match step
    case Tick(ms) =>
    case DoIssue(_, _, _, _) => IssueLeavesFamily(cfg, w, step, root);
    case DoRead(token, faults) =>
      ReadTouches(cfg, w, token, faults);
      assert token.Signed? && token.payload.sid.Some? ==>
               InFamily(w, root, token.payload.sid.value) ==> Closed(cfg, w.backend, w.now, token.payload.sid.value);
    case DoRotate(_, _, _, _) => RotateLeavesFamily(cfg, w, step, root);
    case DoDestroy(token, faults) =>
      if token.Signed? && token.payload.sid.Some? {
        ReadAfterDestroy(w.backend, token.payload.sid.value, w.now);
      }
    case DoDestroyAll(subject, faults) =>
      forall id | InFamily(w, root, id) && Read(Step1(cfg, w, step).0.backend, id).Some?
        ensures Read(Step1(cfg, w, step).0.backend, id) == Read(w.backend, id)
      {
        SurvivorsOfDestroyAll(cfg, w, subject, id);
      }
  }

  lemma {:induction false} StaysClosed(cfg: Config, w: World, w': World, root: Id)
    requires Inv(cfg, w) && Inv(cfg, w') && Grown(w, w') && NoneRevived(w, w') && LeavesFamily(w, w', root)
    requires FamilyClosed(cfg, w, root)
    ensures FamilyClosed(cfg, w', root)
  {
    forall id | InFamily(w', root, id) ensures Closed(cfg, w'.backend, w'.now, id) {
      assert id in w.born;
      RootKept(cfg, w, w', id);
      assert InFamily(w, root, id);
      if Read(w'.backend, id).Some? {
        var s := Read(w'.backend, id).value;
        assert Read(w.backend, id) == Some(s);
        assert LinkOk(w, s);
        if s.supersededBy.Some? {
          ChildRoot(cfg, w, s.supersededBy.value);
          assert InFamily(w, root, s.supersededBy.value);
        }
      }
    }
  }

  lemma {:induction false} RunStaysClosed(cfg: Config, w: World, steps: seq<Step>, root: Id)
    requires Inv(cfg, w) && w.backend != NoStore && Admissible(cfg, w, steps)
    requires root in w.born && FamilyClosed(cfg, w, root)
    ensures FamilyClosed(cfg, Run(cfg, w, steps), root)
    decreases steps
  {
    if steps != [] {
      var w' := Step1(cfg, w, steps[0]).0;
      StepKeepsInv(cfg, w, steps[0]);
      StepGrows(cfg, w, steps[0]);
      StepLeavesFamily(cfg, w, steps[0], root);
      StaysClosed(cfg, w, w', root);
      hide FamilyClosed, LeavesFamily, Inv, Step1;
      RunStaysClosed(cfg, w', steps[1..], root);
    }
  }

  // ---------------------------------------------------------------------------------------
  // Every record was handed out

  ghost predicate NamedBy(w: World, id: Id, p: Payload) {
    p in w.tokens && p.sid == Some(id)
  }

  ghost predicate HandedOut(w: World) {
    forall id :: Read(w.backend, id).Some? ==> exists p :: NamedBy(w, id, p)
  }

  lemma {:induction false} StepHandsOut(cfg: Config, w: World, step: Step)
    requires Inv(cfg, w) && Enabled(w, step) && HandedOut(w)
    ensures HandedOut(Step1(cfg, w, step).0)
  {
    var w' := Step1(cfg, w, step).0;
    StepKeepsInv(cfg, w, step);
    StepGrows(cfg, w, step);
    forall id | Read(w'.backend, id).Some? ensures exists p :: NamedBy(w', id, p) {
      if id in w.born {
        assert Read(w.backend, id).Some?;
        var p :| NamedBy(w, id, p);
        assert NamedBy(w', id, p);
      } else {
        NewRecordHandedOut(cfg, w, step, id);
      }
    }
  }

  lemma {:induction false} NewRecordHandedOut(cfg: Config, w: World, step: Step, id: Id)
    requires Inv(cfg, w) && Inv(cfg, Step1(cfg, w, step).0) && Enabled(w, step) && id !in w.born
    requires Read(Step1(cfg, w, step).0.backend, id).Some?
    ensures exists p :: NamedBy(Step1(cfg, w, step).0, id, p)
  {
    var w' := Step1(cfg, w, step).0;
    assert TrueToBirth(cfg, w', Read(w'.backend, id).value);
    UnbornUnlisted(cfg, w, id);
    if step.DoIssue? {
      IssueHandsOut(cfg, w, step, id);
    } else if step.DoRotate? {
      RotateHandsOut(cfg, w, step, id);
    }
  }

  lemma {:induction false} IssueHandsOut(cfg: Config, w: World, step: Step, id: Id)
    requires Enabled(w, step) && step.DoIssue? && id !in w.born && Read(w.backend, id).None?
    requires id in Step1(cfg, w, step).0.born
    ensures exists p :: NamedBy(Step1(cfg, w, step).0, id, p)
  {
    var w' := Step1(cfg, w, step).0;
    var token := Issue(cfg, w.backend, step.subject, step.claims, step.newId, w.now, step.faults).0.token;
    assert NamedBy(w', id, token);
  }

  lemma {:induction false} RotateHandsOut(cfg: Config, w: World, step: Step, id: Id)
    requires Inv(cfg, w) && Enabled(w, step) && step.DoRotate? && id !in w.born
    requires id in Step1(cfg, w, step).0.born && Read(Step1(cfg, w, step).0.backend, id).Some?
    ensures exists p :: NamedBy(Step1(cfg, w, step).0, id, p)
  {
    var w' := Step1(cfg, w, step).0;
    ReadOutcome(cfg, w, step.token, step.faults);
    RotateSplits(cfg, w, step.token, step.changes, step.newId, step.faults);
    UnbornUnlisted(cfg, w, id);
    var b1 := ReadSession(cfg, w.backend, step.token, w.now, step.faults).1;
    var going := Rotating(cfg, w, step.token, step.changes, step.faults);
    hide Step1, ReadSession, Rotating;
    var (current, claims) := going.value;
    var marked := Supersede(cfg, b1, current.id, step.newId, w.now, step.faults);
    assert w.backend != NoStore;
    SupersedeAddsNothing(cfg, b1, current.id, step.newId, w.now, step.faults);
    var issued := IssueFrom(cfg, marked.1, SuccessorOf(current, claims, step.newId, w.now), claims, w.now, step.faults);
    assert issued.0.Issued?;
    assert NamedBy(w', id, issued.0.token);
  }

  lemma {:induction false} SupersedeAddsNothing(cfg: Config, b: Backend, id: Id, newId: Id, now: int, faults: Faults)
    requires b != NoStore && (b.Indexed? ==> 0 < b.ttlMs)
    requires Read(b, id).Some? ==> Read(b, id).value.id == id
    ensures var b' := Supersede(cfg, b, id, newId, now, faults).1;
            b' != NoStore && forall x :: Read(b', x).Some? <==> Read(b, x).Some?
  {
    if Read(b, id).Some? {
      ReadAfterWrite(b, Read(b, id).value.(supersededAt := Some(now + cfg.rotationOverlapMs),
                                           supersededBy := Some(newId)), now);
    }
  }

  lemma {:induction false} RunHandsOut(cfg: Config, w: World, steps: seq<Step>)
    requires Inv(cfg, w) && HandedOut(w) && Admissible(cfg, w, steps)
    ensures HandedOut(Run(cfg, w, steps))
    decreases steps
  {
    if steps != [] {
      StepKeepsInv(cfg, w, steps[0]);
      StepHandsOut(cfg, w, steps[0]);
      hide Step1, Inv, HandedOut;
      RunHandsOut(cfg, Step1(cfg, w, steps[0]).0, steps[1..]);
    }
  }

  lemma {:induction false} ReachableHandedOut(cfg: Config, w: World)
    requires Reachable(cfg, w)
    ensures Inv(cfg, w) && HandedOut(w)
  {
    var w0, steps :| Initial(cfg, w0) && Admissible(cfg, w0, steps) && w == Run(cfg, w0, steps);
    InitialInv(cfg, w0);
    RunKeepsInv(cfg, w0, steps);
    RunHandsOut(cfg, w0, steps);
  }

  // ---------------------------------------------------------------------------------------
  // Ending a session

  /** No token of the family, signed before or after, reads ok in any later run. */
  ghost predicate Over(cfg: Config, w: World, root: Id) {
    forall after, q, faults :: Admissible(cfg, w, after) && OfFamily(Run(cfg, w, after), root, q) ==>
      ReadSession(cfg, Run(cfg, w, after).backend, Signed(q), Run(cfg, w, after).now, faults).0.ReadFailed?
  }

  ghost predicate OfFamily(w: World, root: Id, q: Payload) {
    q in w.tokens && q.sid.Some? && InFamily(w, root, q.sid.value)
  }

  lemma {:induction false} OverExactly(cfg: Config, w: World, root: Id)
    requires Inv(cfg, w) && HandedOut(w) && w.backend != NoStore && root in w.born
    ensures Over(cfg, w, root) <==> FamilyClosed(cfg, w, root)
  {
    if FamilyClosed(cfg, w, root) {
      forall after, q, faults | Admissible(cfg, w, after) && OfFamily(Run(cfg, w, after), root, q)
        ensures ReadSession(cfg, Run(cfg, w, after).backend, Signed(q), Run(cfg, w, after).now, faults).0.ReadFailed?
      {
        RunKeepsInv(cfg, w, after);
        RunGrows(cfg, w, after);
        RunStaysClosed(cfg, w, after, root);
        ClosedFails(cfg, Run(cfg, w, after), q, faults);
      }
    } else {
      var id :| InFamily(w, root, id) && !Closed(cfg, w.backend, w.now, id);
      var q :| NamedBy(w, id, q);
      OpenReads(cfg, w, q);
      assert Run(cfg, w, []) == w && Admissible(cfg, w, []);
      assert OfFamily(Run(cfg, w, []), root, q);
    }
  }

  /**
   * What is left open of a session whose record `x` is about to be removed: past its absolute
   * expiry, idle, past its window, or rotated away to `x`, to a record that is gone or to one
   * that is idle, a record is closed.
   */
  ghost predicate ClosedWithout(cfg: Config, w: World, x: Id, id: Id) {
    Read(w.backend, id).Some? ==>
      var s := Read(w.backend, id).value;
      || s.absoluteExpiresAt <= w.now
      || (s.supersededAt.None? && Idle(cfg, s, w.now))
      || (s.supersededAt.Some? &&
            (w.now > s.supersededAt.value || s.supersededBy.None? || s.supersededBy.value == x
             || Read(w.backend, s.supersededBy.value).None?
             || Idle(cfg, Read(w.backend, s.supersededBy.value).value, w.now)))
  }

  /**
   * Ending a session by one of its ids ends it for good, for every token it ever had or will
   * have, if and only if each other record of the session is closed at that moment.
   */
  lemma {:induction false} EndingSessionExactly(cfg: Config, w: World, token: Presented, x: Id)
    requires Reachable(cfg, w) && w.backend != NoStore
    requires token.Signed? && token.payload in w.tokens && token.payload.sid == Some(x)
    ensures x in w.born && RootOf(w, x) in w.born
    ensures Over(cfg, Step1(cfg, w, DoDestroy(token, {})).0, RootOf(w, x)) <==>
            forall id :: InFamily(w, RootOf(w, x), id) && id != x ==> ClosedWithout(cfg, w, x, id)
  {
    ReachableHandedOut(cfg, w);
    assert TokenOk(cfg, w, token.payload) && BirthOk(cfg, w, x);
    var step := DoDestroy(token, {});
    var w1 := Step1(cfg, w, step).0;
    var root := RootOf(w, x);
    StepKeepsInv(cfg, w, step);
    StepHandsOut(cfg, w, step);
    RootIsSignIn(cfg, w, x);
    OverExactly(cfg, w1, root);
    ReadAfterDestroy(w.backend, x, w.now);
    forall id | id in w.born ensures InFamily(w1, root, id) <==> InFamily(w, root, id) {
      RootKept(cfg, w, w1, id);
    }
    forall id ensures Closed(cfg, w1.backend, w1.now, id) <==> id == x || ClosedWithout(cfg, w, x, id) {
    }
  }

  // ---------------------------------------------------------------------------------------
  // Two ways to leave a session open

  /** A rotation without faults, when the token reads ok: marked, issued, signed. */
  lemma {:induction false} RotationSucceeds(cfg: Config, w: World, token: Presented, changes: Option<ClaimMap>,
                                            newId: Id)
    requires Inv(cfg, w) && w.backend != NoStore && newId !in w.born
    requires token.Signed? && token.payload in w.tokens
    requires Rotating(cfg, w, token, changes, {}).Some?
    ensures var (w', r) := Step1(cfg, w, DoRotate(token, changes, newId, {}));
            var (current, claims) := Rotating(cfg, w, token, changes, {}).value;
            var b1 := ReadSession(cfg, w.backend, token, w.now, {}).1;
            var s := SuccessorOf(current, claims, newId, w.now);
            && current.id in w.born && w'.now == w.now && newId in w'.born && w'.born[newId].at == w.now
            && r.IssueDone? && r.issue.Issued? && r.issue.token == Encode(cfg, s) && r.issue.token in w'.tokens
            && w'.backend == IssueFrom(cfg, Supersede(cfg, b1, current.id, newId, w.now, {}).1, s, claims, w.now, {}).1
            && RotatesTo(cfg, w.(backend := b1), w'.backend, current, s)
            && w.now < s.absoluteExpiresAt
  {
    ReadOutcome(cfg, w, token, {});
    RotateSplits(cfg, w, token, changes, newId, {});
    hide Step1, ReadSession, Rotating;
    var b1 := ReadSession(cfg, w.backend, token, w.now, {}).1;
    var (current, claims) := Rotating(cfg, w, token, changes, {}).value;
    assert TrueToBirth(cfg, w, Stored(current.id, current.subject, current.claims, current.createdAt,
                                      current.lastSeenAt, current.absoluteExpiresAt, None, None));
    RotatedRecords(cfg, w.(backend := b1), current, claims, newId);
  }

  /** The records after marking `current` and writing its successor `s`. */
  ghost predicate RotatesTo(cfg: Config, w: World, b: Backend, current: Session, s: Stored) {
    && b != NoStore && Read(b, s.id) == Some(s) && Read(w.backend, current.id).Some?
    && Read(b, current.id)
       == Some(Read(w.backend, current.id).value.(supersededAt := Some(w.now + cfg.rotationOverlapMs),
                                                  supersededBy := Some(s.id)))
    && Read(w.backend, current.id).value.absoluteExpiresAt == s.absoluteExpiresAt
    && forall id :: id != s.id && id != current.id ==> Read(b, id) == Read(w.backend, id)
  }

  /** What it leaves. */
  lemma {:induction false} RotationLeaves(cfg: Config, w: World, token: Presented, changes: Option<ClaimMap>, newId: Id)
    requires Inv(cfg, w) && w.backend != NoStore && newId !in w.born && newId != ""
    requires token.Signed? && token.payload in w.tokens
    requires Rotating(cfg, w, token, changes, {}).Some?
    ensures var (w', r) := Step1(cfg, w, DoRotate(token, changes, newId, {}));
            var (current, claims) := Rotating(cfg, w, token, changes, {}).value;
            var s := SuccessorOf(current, claims, newId, w.now);
            && Inv(cfg, w') && w'.now == w.now && w'.backend != NoStore && w.tokens <= w'.tokens
            && r.IssueDone? && r.issue.Issued? && r.issue.token == Encode(cfg, s) && r.issue.token in w'.tokens
            && newId in w'.born && w'.born[newId].at == w.now && current.id in w.born && current.id != newId
            && (forall id :: id in w.born ==> id in w'.born && w'.born[id] == w.born[id])
            && Read(w'.backend, newId) == Some(s)
            && Read(w'.backend, current.id).Some?
            && Read(w'.backend, current.id).value.supersededAt == Some(w.now + cfg.rotationOverlapMs)
            && Read(w'.backend, current.id).value.supersededBy == Some(newId)
            && w.now < s.absoluteExpiresAt
            && Read(w'.backend, current.id).value.absoluteExpiresAt == s.absoluteExpiresAt
            && forall id :: id != newId && id != current.id ==> Read(w'.backend, id) == Read(w.backend, id)
  {
    hide Step1, ReadSession, Rotating, Inv, Supersede, IssueFrom, NoneRevived, Read, Closed, RootOf;
    var step := DoRotate(token, changes, newId, {});
    StepKeepsInv(cfg, w, step);
    StepGrows(cfg, w, step);
    RotationSucceeds(cfg, w, token, changes, newId);
    ReadTouches(cfg, w, token, {});
    RotatingIsTheSession(cfg, w, token, changes);
  }

  lemma {:induction false} RotatingIsTheSession(cfg: Config, w: World, token: Presented, changes: Option<ClaimMap>)
    requires Rotating(cfg, w, token, changes, {}).Some?
    ensures var r := ReadSession(cfg, w.backend, token, w.now, {}).0;
            r.ReadOk? && r.session == Rotating(cfg, w, token, changes, {}).value.0
  {
    hide ReadSession;
  }

  lemma {:induction false} DestroyLeaves(cfg: Config, w: World, p: Payload)
    requires Inv(cfg, w) && w.backend != NoStore && p in w.tokens
    ensures p.sid.Some?
    ensures var w' := Step1(cfg, w, DoDestroy(Signed(p), {})).0;
            && Inv(cfg, w') && w'.now == w.now && w'.tokens == w.tokens && w'.backend != NoStore
            && forall id :: Read(w'.backend, id) == if id == p.sid.value then None else Read(w.backend, id)
  {
    StepKeepsInv(cfg, w, DoDestroy(Signed(p), {}));
    assert TokenOk(cfg, w, p) && BirthOk(cfg, w, p.sid.value);
    ReadAfterDestroy(w.backend, p.sid.value, w.now);
  }

  lemma {:induction false} RotatedRecords(cfg: Config, w: World, current: Session, claims: ClaimMap, newId: Id)
    requires Inv(cfg, w) && w.backend != NoStore && current.id != newId
    requires Read(w.backend, current.id).Some? && current.id in w.born
    requires current.absoluteExpiresAt == ExpiryOf(cfg, w, current.id)
    ensures var marked := Supersede(cfg, w.backend, current.id, newId, w.now, {});
            var s := SuccessorOf(current, claims, newId, w.now);
            var issued := IssueFrom(cfg, marked.1, s, claims, w.now, {});
            && marked.0 && issued.0.Issued? && issued.0.token == Encode(cfg, s)
            && RotatesTo(cfg, w, issued.1, current, s)
  {
    var found := Read(w.backend, current.id).value;
    assert TrueToBirth(cfg, w, found);
    var marked := Supersede(cfg, w.backend, current.id, newId, w.now, {});
    ReadAfterWrite(w.backend, found.(supersededAt := Some(w.now + cfg.rotationOverlapMs), supersededBy := Some(newId)),
                   w.now);
    ReadAfterWrite(marked.1, SuccessorOf(current, claims, newId, w.now), w.now);
  }

  /**
   * With a token that was just rotated away: whenever a token can be rotated, ending the
   * session with it afterwards leaves the token it was rotated to alive.
   */
  lemma {:induction false} EndingWithTheOldToken(cfg: Config, w: World, p: Payload, changes: Option<ClaimMap>,
                                                 newId: Id)
    requires Reachable(cfg, w) && w.backend != NoStore && p in w.tokens && newId !in w.born && newId != ""
    requires Rotating(cfg, w, Signed(p), changes, {}).Some?
    ensures var (w1, r) := Step1(cfg, w, DoRotate(Signed(p), changes, newId, {}));
            var w2 := Step1(cfg, w1, DoDestroy(Signed(p), {})).0;
            && r.IssueDone? && r.issue.Issued? && p in w1.tokens
            && ReadSession(cfg, w2.backend, Signed(r.issue.token), w2.now, {}).0.ReadOk?
  {
    ReachableInv(cfg, w);
    RotationLeaves(cfg, w, Signed(p), changes, newId);
    var (w1, r) := Step1(cfg, w, DoRotate(Signed(p), changes, newId, {}));
    assert TokenOk(cfg, w, p);
    DestroyLeaves(cfg, w1, p);
    hide Step1, ReadSession, Rotating, Inv, Reachable, Read;
    OpenReads(cfg, Step1(cfg, w1, DoDestroy(Signed(p), {})).0, r.issue.token);
  }

  /**
   * With the newest token: after two rotations, ending the session with the last token
   * leaves the first one alive, which then reads as the session in between.
   */
  lemma {:induction false} EndingWithTheNewestToken(cfg: Config, w: World, p: Payload, changes: Option<ClaimMap>,
                                                    second: Id, third: Id)
    requires Reachable(cfg, w) && w.backend != NoStore && p in w.tokens
    requires second !in w.born && second != "" && third !in w.born && third != "" && third != second
    requires Rotating(cfg, w, Signed(p), changes, {}).Some?
    requires Rotating(cfg, w, Signed(p), changes, {}).value.0.id == p.sid.GetOr("")
    ensures var (w1, r1) := Step1(cfg, w, DoRotate(Signed(p), changes, second, {}));
            && r1.IssueDone? && r1.issue.Issued?
            && var (w2, r2) := Step1(cfg, w1, DoRotate(Signed(r1.issue.token), None, third, {}));
               && r2.IssueDone? && r2.issue.Issued?
               && var w3 := Step1(cfg, w2, DoDestroy(Signed(r2.issue.token), {})).0;
                  var r := ReadSession(cfg, w3.backend, Signed(p), w3.now, {}).0;
                  r.ReadOk? && r.session.id == second
  {
    hide Step1, ReadSession, Rotating, Inv, Reachable, Read, SecondInUse;
    ReachableInv(cfg, w);
    TwoRotationsLeave(cfg, w, p, changes, second, third);
    var (w1, r1) := Step1(cfg, w, DoRotate(Signed(p), changes, second, {}));
    var (w2, r2) := Step1(cfg, w1, DoRotate(Signed(r1.issue.token), None, third, {}));
    DestroyLeaves(cfg, w2, r2.issue.token);
    FollowsToSecond(cfg, w2, Step1(cfg, w2, DoDestroy(Signed(r2.issue.token), {})).0, p, second, third);
  }

  /** `p` names a record in its window whose successor `second` is in use and was rotated away to `third`. */
  ghost predicate SecondInUse(cfg: Config, w: World, p: Payload, second: Id, third: Id) {
    && w.backend != NoStore && p.sid.Some? && p.sid.value != third && second != third && p.sid.value != second
    && Read(w.backend, p.sid.value).Some? && Read(w.backend, second).Some?
    && var s, t := Read(w.backend, p.sid.value).value, Read(w.backend, second).value;
       && s.supersededAt.Some? && w.now <= s.supersededAt.value && s.supersededBy == Some(second)
       && w.now < s.absoluteExpiresAt && w.now - t.lastSeenAt <= cfg.idleTtlMs
  }

  lemma {:induction false} TwoRotationsLeave(cfg: Config, w: World, p: Payload, changes: Option<ClaimMap>, second: Id,
                                             third: Id)
    requires Inv(cfg, w) && w.backend != NoStore && p in w.tokens
    requires second !in w.born && second != "" && third !in w.born && third != "" && third != second
    requires Rotating(cfg, w, Signed(p), changes, {}).Some?
    requires Rotating(cfg, w, Signed(p), changes, {}).value.0.id == p.sid.GetOr("")
    ensures var (w1, r1) := Step1(cfg, w, DoRotate(Signed(p), changes, second, {}));
            && r1.IssueDone? && r1.issue.Issued?
            && var (w2, r2) := Step1(cfg, w1, DoRotate(Signed(r1.issue.token), None, third, {}));
               && r2.IssueDone? && r2.issue.Issued? && Inv(cfg, w2) && w2.backend != NoStore && p in w2.tokens
               && r2.issue.token in w2.tokens && r2.issue.token.sid == Some(third)
               && SecondInUse(cfg, w2, p, second, third)
  {
    assert TokenOk(cfg, w, p);
    assert 0 < cfg.idleTtlMs && 0 <= cfg.rotationOverlapMs;
    hide Step1, ReadSession, Rotating, Inv, Read;
    RotationLeaves(cfg, w, Signed(p), changes, second);
    OnlyOneBorn(cfg, w, Signed(p), changes, second, third);
    var (w1, r1) := Step1(cfg, w, DoRotate(Signed(p), changes, second, {}));
    FreshRotates(cfg, w1, r1.issue.token, second);
    RotationLeaves(cfg, w1, Signed(r1.issue.token), None, third);
    var (w2, r2) := Step1(cfg, w1, DoRotate(Signed(r1.issue.token), None, third, {}));
    SeenSinceBirth(cfg, w2, second);
  }

  lemma {:induction false} SeenSinceBirth(cfg: Config, w: World, id: Id)
    requires Inv(cfg, w) && Read(w.backend, id).Some?
    ensures id in w.born && w.born[id].at <= Read(w.backend, id).value.lastSeenAt
  {
    assert TrueToBirth(cfg, w, Read(w.backend, id).value);
  }

  lemma {:induction false} OnlyOneBorn(cfg: Config, w: World, token: Presented, changes: Option<ClaimMap>, newId: Id,
                                       other: Id)
    requires other !in w.born && other != newId
    ensures other !in Step1(cfg, w, DoRotate(token, changes, newId, {})).0.born
  {
  }

  /** A token just signed, for a record just written, can be rotated, and it is its own record that rotates. */
  lemma {:induction false} FreshRotates(cfg: Config, w: World, p: Payload, id: Id)
    requires Inv(cfg, w) && w.backend != NoStore && p in w.tokens && p.sid == Some(id)
    requires Read(w.backend, id).Some?
    requires var s := Read(w.backend, id).value;
             s.supersededAt.None? && s.lastSeenAt == w.now && w.now < s.absoluteExpiresAt
    ensures var going := Rotating(cfg, w, Signed(p), None, {});
            going.Some? && going.value.0.id == id
  {
    var s := Read(w.backend, id).value;
    assert TokenOk(cfg, w, p) && TrueToBirth(cfg, w, s) && BirthOk(cfg, w, id);
    assert Locate(cfg, w.backend, Signed(p), w.now, {}) == Landed(s, None);
  }

  lemma {:induction false} FollowsToSecond(cfg: Config, w2: World, w3: World, p: Payload, second: Id, third: Id)
    requires Inv(cfg, w2) && Inv(cfg, w3) && w3.now == w2.now && w3.backend != NoStore && p in w3.tokens
    requires forall id :: Read(w3.backend, id) == if id == third then None else Read(w2.backend, id)
    requires SecondInUse(cfg, w2, p, second, third)
    ensures var r := ReadSession(cfg, w3.backend, Signed(p), w3.now, {}).0;
            r.ReadOk? && r.session.id == second
  {
    OpenReads(cfg, w3, p);
    var t := Read(w3.backend, second).value;
    assert TokenOk(cfg, w3, p) && TrueToBirth(cfg, w3, t) && BirthOk(cfg, w3, second);
    assert t.id == second;
  }
}
