/**
 * What the engine promises over whole runs: revocation that stays, overlap windows that
 * close, links that never run in circles, and a lifetime nothing extends.
 */
module SessionTheorems {
  import opened Wrappers
  import opened Claims
  import opened TtlStorage
  import opened SessionStore
  import opened SessionEngine
  import opened SessionRuns
  import opened SessionInvariants

  ghost predicate Reachable(cfg: Config, w: World) {
    exists w0, steps :: Initial(cfg, w0) && Admissible(cfg, w0, steps) && w == Run(cfg, w0, steps)
  }

  lemma ReachableInv(cfg: Config, w: World)
    requires Reachable(cfg, w)
    ensures Inv(cfg, w)
  {
    var w0, steps :| Initial(cfg, w0) && Admissible(cfg, w0, steps) && w == Run(cfg, w0, steps);
    InitialInv(cfg, w0);
    RunKeepsInv(cfg, w0, steps);
  }

  // ---------------------------------------------------------------------------------------
  // What never changes along a run

  /** The world moved on without forgetting: births, first markings and the clock only grow. */
  ghost predicate Grown(w: World, w': World) {
    && w.now <= w'.now
    && w.tokens <= w'.tokens
    && (w.backend == NoStore <==> w'.backend == NoStore)
    && (forall id :: id in w.born ==> id in w'.born && w'.born[id] == w.born[id])
    && (forall id :: id in w.marks ==>
          id in w'.marks && w'.marks[id].first == w.marks[id].first && w.marks[id].deadline <= w'.marks[id].deadline)
  }

  /** Every record present after a step was present before it, or is the step's fresh id. */
  ghost predicate NoneRevived(w: World, w': World) {
    forall id :: id in w.born && Read(w'.backend, id).Some? ==> Read(w.backend, id).Some?
  }

  lemma StepGrows(cfg: Config, w: World, step: Step)
    requires Inv(cfg, w) && Enabled(w, step)
    ensures Grown(w, Step1(cfg, w, step).0) && NoneRevived(w, Step1(cfg, w, step).0)
  {
    match step
    case Tick(ms) =>
    case DoIssue(subject, claims, newId, faults) =>
      var decoded := Decode(cfg.shape, claims);
      if decoded.Some? && w.backend != NoStore {
        ReadAfterWrite(w.backend,
                       Stored(newId, subject, decoded.value, w.now, w.now, w.now + cfg.absoluteTtlMs, None, None),
                       w.now);
      }
    case DoRead(token, faults) =>
      ReadOutcome(cfg, w, token, faults);
    case DoRotate(token, changes, newId, faults) =>
      RotateGrows(cfg, w, token, changes, newId, faults);
      RotateKeepsPresence(cfg, w, token, changes, newId, faults);
    case DoDestroy(token, faults) =>
      if w.backend != NoStore && token.Signed? && token.payload.sid.Some? {
        ReadAfterDestroy(w.backend, token.payload.sid.value, w.now);
      }
    case DoDestroyAll(subject, faults) =>
  }

  /** Which records are there after `Supersede` and after storing the successor. */
  lemma RotatePresence(cfg: Config, b: Backend, current: Session, claims: ClaimMap, newId: Id, now: int, faults: Faults)
    requires b != NoStore && (b.Indexed? ==> 0 < b.ttlMs)
    requires Read(b, current.id).Some? && Read(b, current.id).value.id == current.id
    ensures var marked := Supersede(cfg, b, current.id, newId, now, faults);
            var b' := IssueFrom(cfg, marked.1, SuccessorOf(current, claims, newId, now), claims, now, faults).1;
            && marked.1 != NoStore && b' != NoStore
            && (forall id :: Read(marked.1, id).Some? <==> Read(b, id).Some?)
            && (forall id :: id != newId ==> (Read(b', id).Some? <==> Read(b, id).Some?))
            && (faults == {} ==> marked.0 && Read(b', newId).Some?)
  {
    var marked := Supersede(cfg, b, current.id, newId, now, faults);
    var s := Read(b, current.id).value;
    ReadAfterWrite(b, s.(supersededAt := Some(now + cfg.rotationOverlapMs), supersededBy := Some(newId)), now);
    ReadAfterWrite(marked.1, SuccessorOf(current, claims, newId, now), now);
  }

  lemma NothingStored(cfg: Config, current: Session, claims: ClaimMap, newId: Id, now: int, faults: Faults)
    ensures Read(NoStore, current.id).None?
    ensures Supersede(cfg, NoStore, current.id, newId, now, faults).1 == NoStore
    ensures IssueFrom(cfg, NoStore, SuccessorOf(current, claims, newId, now), claims, now, faults).1 == NoStore
    ensures forall id :: Read(NoStore, id).None?
  {
  }

  lemma RotateGrows(cfg: Config, w: World, token: Presented, changes: Option<ClaimMap>, newId: Id, faults: Faults)
    requires Inv(cfg, w) && newId !in w.born && newId != ""
    requires token.Signed? ==> token.payload in w.tokens
    ensures Grown(w, Step1(cfg, w, DoRotate(token, changes, newId, faults)).0)
  {
    ReadOutcome(cfg, w, token, faults);
    RotateSplits(cfg, w, token, changes, newId, faults);
    hide Step1, ReadSession, Rotating, Supersede, IssueFrom;
    var b1 := ReadSession(cfg, w.backend, token, w.now, faults).1;
    var going := Rotating(cfg, w, token, changes, faults);
    if going.Some? {
      var (current, claims) := going.value;
      assert current.id in w.marks ==> MarkOk(cfg, w, current.id);
      if w.backend != NoStore {
        RotatePresence(cfg, b1, current, claims, newId, w.now, faults);
      } else {
        NothingStored(cfg, current, claims, newId, w.now, faults);
      }
    }
  }

  lemma RotateKeepsPresence(cfg: Config, w: World, token: Presented, changes: Option<ClaimMap>, newId: Id,
                            faults: Faults)
    requires Inv(cfg, w) && newId !in w.born && newId != ""
    requires token.Signed? ==> token.payload in w.tokens
    ensures var w' := Step1(cfg, w, DoRotate(token, changes, newId, faults)).0;
            && NoneRevived(w, w')
            && (w.backend != NoStore && faults == {} ==>
                  && (forall id :: id in w.born && Read(w.backend, id).Some? ==> Read(w'.backend, id).Some?)
                  && (newId in w'.born ==> Read(w'.backend, newId).Some?)
                  && (forall id :: id in w'.born ==> id in w.born || id == newId))
  {
    ReadOutcome(cfg, w, token, faults);
    RotateSplits(cfg, w, token, changes, newId, faults);
    hide Step1, ReadSession, Rotating, Supersede, IssueFrom, Read, BirthsOk, MarksOk, TokensOk, TablesOk;
    var b1 := ReadSession(cfg, w.backend, token, w.now, faults).1;
    var going := Rotating(cfg, w, token, changes, faults);
    if going.Some? {
      var (current, claims) := going.value;
      if w.backend != NoStore {
        assert Read(b1, current.id).value.id == current.id;
        RotatePresence(cfg, b1, current, claims, newId, w.now, faults);
      } else {
        NothingStored(cfg, current, claims, newId, w.now, faults);
      }
    }
  }

  lemma {:induction false} RunGrows(cfg: Config, w: World, steps: seq<Step>)
    requires Inv(cfg, w) && Admissible(cfg, w, steps)
    ensures Grown(w, Run(cfg, w, steps)) && NoneRevived(w, Run(cfg, w, steps))
    decreases steps
  {
    if steps != [] {
      StepKeepsInv(cfg, w, steps[0]);
      StepGrows(cfg, w, steps[0]);
      RunGrows(cfg, Step1(cfg, w, steps[0]).0, steps[1..]);
    }
  }

  // ---------------------------------------------------------------------------------------
  // Revocation

  /**
   * The index agrees with a scan: every stored session that has not reached its absolute
   * expiry is listed in an index entry of its subject that is still live.
   */
  lemma IndexAgreesWithScan(cfg: Config, w: World, id: Id)
    requires Reachable(cfg, w) && w.backend.Indexed?
    requires id in w.backend.sessions && w.now < w.backend.sessions[id].value.absoluteExpiresAt
    ensures var s := w.backend.sessions[id].value;
            && s.subject in w.backend.subjects
            && id in w.backend.subjects[s.subject].value
            && Alive(w.backend.subjects[s.subject], w.now)
            && Alive(w.backend.sessions[id], w.now)
            && id in w.born && s.subject == w.born[id].subject
  {
    ReachableInv(cfg, w);
    assert Read(w.backend, id).Some?;
    assert Listed(w.backend, w.backend.sessions[id].value);
  }

  /** No record, or one past its absolute expiry. */
  ghost predicate Dead(cfg: Config, w: World, id: Id)
    requires id in w.born
  {
    Read(w.backend, id).None? || ExpiryOf(cfg, w, id) <= w.now
  }

  lemma DeadTokensFail(cfg: Config, w: World, p: Payload, faults: Faults)
    requires Inv(cfg, w) && p in w.tokens && w.backend != NoStore
    requires p.sid.Some? && p.sid.value in w.born && Dead(cfg, w, p.sid.value)
    ensures ReadSession(cfg, w.backend, Signed(p), w.now, faults).0.ReadFailed?
  {
    assert TokenOk(cfg, w, p);
  }

  /**
   * Ending every session of a subject is final: no token signed for the subject before it
   * reads ok at any later point of any run, whatever else happens.
   */
  lemma {:induction false} DestroyAllIsFinal(cfg: Config, w: World, subject: Subject, after: seq<Step>, p: Payload,
                                             faults: Faults)
    requires Reachable(cfg, w) && w.backend != NoStore
    requires p in w.tokens && p.sid.Some? && p.sid.value in w.born && w.born[p.sid.value].subject == subject
    requires Admissible(cfg, w, [DoDestroyAll(subject, {})] + after)
    ensures var w' := Run(cfg, w, [DoDestroyAll(subject, {})] + after);
            ReadSession(cfg, w'.backend, Signed(p), w'.now, faults).0.ReadFailed?
  {
    ReachableInv(cfg, w);
    var step := DoDestroyAll(subject, {});
    var w1 := Step1(cfg, w, step).0;
    assert ([step] + after)[1..] == after;
    StepKeepsInv(cfg, w, step);
    StepGrows(cfg, w, step);
    RunKeepsInv(cfg, w1, after);
    RunGrows(cfg, w1, after);
    var id := p.sid.value;
    SurvivorsOfDestroyAll(cfg, w, subject, id);
    assert Dead(cfg, w1, id);
    DeadTokensFail(cfg, Run(cfg, w1, after), p, faults);
  }

  /** So is removing one record, for every token that names its id. */
  lemma {:induction false} DestroyIsFinal(cfg: Config, w: World, token: Presented, after: seq<Step>, p: Payload,
                                          faults: Faults)
    requires Reachable(cfg, w) && w.backend != NoStore
    requires token.Signed? && p in w.tokens && p.sid == token.payload.sid
    requires Admissible(cfg, w, [DoDestroy(token, {})] + after)
    ensures var w' := Run(cfg, w, [DoDestroy(token, {})] + after);
            ReadSession(cfg, w'.backend, Signed(p), w'.now, faults).0.ReadFailed?
  {
    ReachableInv(cfg, w);
    var step := DoDestroy(token, {});
    var w1 := Step1(cfg, w, step).0;
    assert ([step] + after)[1..] == after;
    StepKeepsInv(cfg, w, step);
    StepGrows(cfg, w, step);
    RunKeepsInv(cfg, w1, after);
    RunGrows(cfg, w1, after);
    assert TokenOk(cfg, w, p);
    assert BirthOk(cfg, w, p.sid.value);
    ReadAfterDestroy(w.backend, p.sid.value, w.now);
    DeadTokensFail(cfg, Run(cfg, w1, after), p, faults);
  }

  // ---------------------------------------------------------------------------------------
  // Overlap windows

  /** Each window is bounded by the parent's; a session that was signed in directly has exactly one. */
  lemma OverlapBounds(cfg: Config, w: World, id: Id)
    requires Reachable(cfg, w) && id in w.marks
    ensures id in w.born
    ensures w.born[id].parent.None? ==> w.marks[id].deadline == w.marks[id].first + cfg.rotationOverlapMs
    ensures w.born[id].parent.Some? ==>
              var p := w.born[id].parent.value;
              p in w.marks
              && w.marks[id].deadline <= Max(w.marks[id].first, w.marks[p].deadline) + cfg.rotationOverlapMs
  {
    ReachableInv(cfg, w);
    assert MarkOk(cfg, w, id);
  }

  /**
   * However rotations are arranged, an id that was rotated away stays resolvable for at
   * most one overlap per generation since sign-in, counted from its first rotation.
   */
  lemma {:induction false} WindowsClose(cfg: Config, w: World, id: Id)
    requires Inv(cfg, w) && id in w.marks
    ensures id in w.born
    ensures w.marks[id].deadline <= w.marks[id].first + (w.born[id].depth + 1) * cfg.rotationOverlapMs
    decreases if id in w.born then w.born[id].depth else 0
  {
    assert MarkOk(cfg, w, id);
    assert BirthOk(cfg, w, id);
    var overlap := cfg.rotationOverlapMs;
    var depth := w.born[id].depth;
    if w.born[id].parent.Some? {
      var p := w.born[id].parent.value;
      WindowsClose(cfg, w, p);
      assert (w.born[p].depth + 1) * overlap == depth * overlap;
      assert (depth + 1) * overlap == depth * overlap + overlap;
      assert 0 <= depth * overlap;
    }
  }

  /** Past the window, a superseded token fails. */
  lemma ReadPastDeadlineFails(cfg: Config, w: World, p: Payload, faults: Faults)
    requires Inv(cfg, w) && p in w.tokens
    requires p.sid.Some? && p.sid.value in w.marks && w.marks[p.sid.value].deadline < w.now
    ensures ReadSession(cfg, w.backend, Signed(p), w.now, faults).0.ReadFailed?
  {
    assert TokenOk(cfg, w, p);
  }

  /**
   * No run of rotations keeps an old id alive: from an instant fixed when the id was first
   * rotated away, its tokens fail in every continuation.
   */
  lemma {:induction false} RotatedAwayIdsDie(cfg: Config, w: World, after: seq<Step>, p: Payload, faults: Faults)
    requires Reachable(cfg, w) && Admissible(cfg, w, after)
    requires p in w.tokens && p.sid.Some? && p.sid.value in w.marks && p.sid.value in w.born
    requires var id := p.sid.value;
             w.marks[id].first + (w.born[id].depth + 1) * cfg.rotationOverlapMs < Run(cfg, w, after).now
    ensures var w' := Run(cfg, w, after);
            ReadSession(cfg, w'.backend, Signed(p), w'.now, faults).0.ReadFailed?
  {
    ReachableInv(cfg, w);
    RunKeepsInv(cfg, w, after);
    RunGrows(cfg, w, after);
    WindowsClose(cfg, Run(cfg, w, after), p.sid.value);
    ReadPastDeadlineFails(cfg, Run(cfg, w, after), p, faults);
  }

  // ---------------------------------------------------------------------------------------
  // Links

  ghost predicate Link(w: World, a: Id, b: Id) {
    Read(w.backend, a).Some? && Read(w.backend, a).value.supersededBy == Some(b)
  }

  /** Windows never close earlier further along a link. */
  lemma WindowsGrowAlongLinks(cfg: Config, w: World, a: Id, b: Id)
    requires Reachable(cfg, w) && Link(w, a, b)
    ensures Read(w.backend, a).value.supersededAt.Some?
    ensures var r := Read(w.backend, b);
            r.Some? && r.value.supersededAt.Some? ==>
              Read(w.backend, a).value.supersededAt.value <= r.value.supersededAt.value
  {
    ReachableInv(cfg, w);
    assert LinkOk(w, Read(w.backend, a).value);
    if Read(w.backend, b).Some? {
      assert LinkOk(w, Read(w.backend, b).value);
    }
  }

  /**
   * One hop is enough: the record a superseded token resolves to is itself not superseded,
   * or still inside its own window.
   */
  lemma OneHopIsEnough(cfg: Config, w: World, token: Presented, faults: Faults)
    requires Reachable(cfg, w) && (token.Signed? ==> token.payload in w.tokens)
    requires Locate(cfg, w.backend, token, w.now, faults).Landed?
    ensures var s := Locate(cfg, w.backend, token, w.now, faults).stored;
            s.supersededAt.None? || w.now <= s.supersededAt.value
  {
    ReachableInv(cfg, w);
    LocateLands(cfg, w, token, faults);
    var l := Locate(cfg, w.backend, token, w.now, faults);
    var sid := token.payload.sid.value;
    if l.stored.supersededAt.Some? && w.backend != NoStore {
      assert Link(w, sid, l.stored.id);
      WindowsGrowAlongLinks(cfg, w, sid, l.stored.id);
    }
  }

  ghost predicate Chain(w: World, ids: seq<Id>) {
    forall i :: 0 <= i < |ids| - 1 ==> Link(w, ids[i], ids[i + 1])
  }

  lemma {:induction false} ChainsDescend(cfg: Config, w: World, ids: seq<Id>)
    requires Inv(cfg, w) && |ids| >= 2 && Chain(w, ids)
    ensures ids[0] in w.born && ids[|ids| - 1] in w.born
    ensures w.born[ids[|ids| - 1]].depth == w.born[ids[0]].depth + |ids| - 1
  {
    var last := |ids| - 1;
    assert Link(w, ids[last - 1], ids[last]);
    assert LinkOk(w, Read(w.backend, ids[last - 1]).value);
    assert BirthOk(cfg, w, ids[last]);
    if |ids| > 2 {
      assert forall i :: 0 <= i < last - 1 ==> Link(w, ids[i], ids[i + 1]);
      ChainsDescend(cfg, w, ids[..last]);
    }
  }

  /** Following links never comes back to where it started. */
  lemma LinksAreAcyclic(cfg: Config, w: World, ids: seq<Id>)
    requires Reachable(cfg, w) && |ids| >= 2 && Chain(w, ids)
    ensures ids[0] != ids[|ids| - 1]
  {
    ReachableInv(cfg, w);
    ChainsDescend(cfg, w, ids);
  }

  // ---------------------------------------------------------------------------------------
  // Absolute lifetime

  /** The sign-in an id descends from: same subject, and its instant is the descendant's creation time. */
  lemma {:induction false} SignInOf(cfg: Config, w: World, id: Id) returns (root: Id)
    requires Inv(cfg, w) && id in w.born
    ensures root in w.born && w.born[root].parent.None?
    ensures w.born[root].at == w.born[id].root && w.born[root].subject == w.born[id].subject
    decreases w.born[id].depth
  {
    assert BirthOk(cfg, w, id);
    if w.born[id].parent.None? {
      root := id;
    } else {
      root := SignInOf(cfg, w, w.born[id].parent.value);
    }
  }

  /**
   * Every token and record expires exactly one absolute lifetime after the sign-in it
   * descends from, so the signed expiry and the stored one never disagree.
   */
  lemma AbsoluteLifetimeIsConserved(cfg: Config, w: World, p: Payload) returns (root: Id)
    requires Reachable(cfg, w) && p in w.tokens
    ensures root in w.born && w.born[root].parent.None?
    ensures p.sid.Some? && p.aex == Some(w.born[root].at + cfg.absoluteTtlMs)
    ensures var r := Read(w.backend, p.sid.value);
            r.Some? ==>
              && r.value.absoluteExpiresAt == p.aex.value
              && r.value.subject == w.born[root].subject
              && (r.value.supersededBy.Some? && Read(w.backend, r.value.supersededBy.value).Some? ==>
                    Read(w.backend, r.value.supersededBy.value).value.absoluteExpiresAt == p.aex.value)
  {
    ReachableInv(cfg, w);
    assert TokenOk(cfg, w, p);
    var id := p.sid.value;
    root := SignInOf(cfg, w, id);
    var r := Read(w.backend, id);
    if r.Some? {
      assert LinkOk(w, r.value);
      if r.value.supersededBy.Some? {
        assert BirthOk(cfg, w, r.value.supersededBy.value);
      }
    }
  }

  ghost predicate Quiet(steps: seq<Step>) {
    forall i :: 0 <= i < |steps| ==>
      match steps[i]
      case Tick(_) => true
      case DoIssue(_, _, _, faults) => faults == {}
      case DoRead(_, faults) => faults == {}
      case DoRotate(_, _, _, faults) => faults == {}
      case DoDestroy(_, _) => false
      case DoDestroyAll(_, _) => false
  }

  /** Every id drawn so far has its record until its absolute expiry. */
  ghost predicate AllPresent(cfg: Config, w: World) {
    forall id :: id in w.born && w.now < ExpiryOf(cfg, w, id) ==> Read(w.backend, id).Some?
  }

  lemma QuietStepKeepsAll(cfg: Config, w: World, step: Step)
    requires Inv(cfg, w) && Enabled(w, step) && w.backend != NoStore
    requires Quiet([step]) && AllPresent(cfg, w)
    ensures AllPresent(cfg, Step1(cfg, w, step).0)
  {
    assert [step][0] == step;
    match step
    case Tick(ms) =>
      assert forall id :: Read(w.backend, id).Some? ==> TrueToBirth(cfg, w, Read(w.backend, id).value);
      forall id | id in w.born && w.now + ms < ExpiryOf(cfg, w, id)
        ensures Read(Expire(w.backend, w.now + ms), id).Some?
      {
        assert Read(w.backend, id).Some?;
      }
    case DoIssue(subject, claims, newId, faults) =>
      var decoded := Decode(cfg.shape, claims);
      if decoded.Some? {
        ReadAfterWrite(w.backend,
                       Stored(newId, subject, decoded.value, w.now, w.now, w.now + cfg.absoluteTtlMs, None, None),
                       w.now);
      }
    case DoRead(token, faults) =>
      ReadOutcome(cfg, w, token, faults);
    case DoRotate(token, changes, newId, faults) =>
      StepGrows(cfg, w, step);
      RotateGrows(cfg, w, token, changes, newId, faults);
      RotateKeepsPresence(cfg, w, token, changes, newId, faults);
    case DoDestroy(_, _) =>
    case DoDestroyAll(_, _) =>
  }

  lemma {:induction false} QuietRunKeepsAll(cfg: Config, w: World, steps: seq<Step>)
    requires Inv(cfg, w) && Admissible(cfg, w, steps) && w.backend != NoStore
    requires Quiet(steps) && AllPresent(cfg, w)
    ensures AllPresent(cfg, Run(cfg, w, steps))
    decreases steps
  {
    if steps != [] {
      assert Quiet([steps[0]]);
      StepKeepsInv(cfg, w, steps[0]);
      StepGrows(cfg, w, steps[0]);
      QuietStepKeepsAll(cfg, w, steps[0]);
      QuietRunKeepsAll(cfg, Step1(cfg, w, steps[0]).0, steps[1..]);
    }
  }

  /**
   * Without destroys and store failures no record is reclaimed early: a signed token reads
   * as expired exactly when the session it resolves to is past its absolute lifetime or
   * idle, as revoked exactly when its window closed before that, and otherwise as a session
   * of its own subject. It never reads as unknown.
   */
  lemma {:induction false} IssuedTokensAreNeverUnknown(cfg: Config, w0: World, steps: seq<Step>, p: Payload)
    requires Initial(cfg, w0) && w0.backend != NoStore && Admissible(cfg, w0, steps) && Quiet(steps)
    requires p in Run(cfg, w0, steps).tokens
    ensures var w := Run(cfg, w0, steps);
            var r := ReadSession(cfg, w.backend, Signed(p), w.now, {}).0;
            && p.sid.Some? && p.sid.value in w.born
            && (w.now >= ExpiryOf(cfg, w, p.sid.value) ==> r == ReadFailed(SessionExpired))
            && (w.now < ExpiryOf(cfg, w, p.sid.value) ==>
                  if p.sid.value in w.marks && w.marks[p.sid.value].deadline < w.now
                  then r == ReadFailed(SessionRevoked)
                  else
                    var l := Locate(cfg, w.backend, Signed(p), w.now, {});
                    && l.Landed?
                    && (w.now - l.stored.lastSeenAt > cfg.idleTtlMs ==> r == ReadFailed(SessionExpired))
                    && (w.now - l.stored.lastSeenAt <= cfg.idleTtlMs ==>
                          r.ReadOk? && r.session.id == l.stored.id && r.session.subject == w.born[p.sid.value].subject))
  {
    InitialInv(cfg, w0);
    RunKeepsInv(cfg, w0, steps);
    RunGrows(cfg, w0, steps);
    QuietRunKeepsAll(cfg, w0, steps);
    var w := Run(cfg, w0, steps);
    assert TokenOk(cfg, w, p);
    var id := p.sid.value;
    assert BirthOk(cfg, w, id);
    if w.now < ExpiryOf(cfg, w, id) {
      var first := Read(w.backend, id).value;
      assert LinkOk(w, first);
      if id in w.marks && w.now <= w.marks[id].deadline {
        var next := first.supersededBy.value;
        assert BirthOk(cfg, w, next);
        assert Read(w.backend, next).Some?;
        assert TrueToBirth(cfg, w, Read(w.backend, next).value);
      }
    }
  }
}
