/**
 * The storage-backed store, with its time to live and its subject index, is a refinement of
 * the reference store that keeps every record and scans: the engine answers every call of
 * every run the same way over either.
 */
module StoreRefinement {
  import opened Wrappers
  import opened Claims
  import opened SessionStore
  import opened SessionEngine
  import opened SessionRuns
  import opened SessionInvariants

  /** Two worlds that differ only in their backend, and there only in sessions past their absolute expiry. */
  ghost predicate Alike(cfg: Config, w: World, v: World) {
    && w.backend.Indexed? && v.backend.Reference?
    && v == w.(backend := v.backend)
    && forall id :: id in w.born && w.now < ExpiryOf(cfg, w, id) ==> Read(w.backend, id) == Read(v.backend, id)
  }

  /** What a caller sees of a call; how many records a bulk destroy removed is the store's own business. */
  function Answer(r: Result): Result {
    if r.DestroyAllDone? then DestroyAllDone(0) else r
  }

  ghost predicate SameAnswers(cfg: Config, w: World, v: World, steps: seq<Step>)
    decreases steps
  {
    steps == [] ||
    (var (w', r) := Step1(cfg, w, steps[0]);
     var (v', q) := Step1(cfg, v, steps[0]);
     Answer(r) == Answer(q) && SameAnswers(cfg, w', v', steps[1..]))
  }

  lemma LocateAlike(cfg: Config, w: World, v: World, token: Presented, faults: Faults)
    requires Inv(cfg, w) && Inv(cfg, v) && Alike(cfg, w, v)
    requires token.Signed? ==> token.payload in w.tokens
    ensures Locate(cfg, w.backend, token, w.now, faults) == Locate(cfg, v.backend, token, v.now, faults)
  {
    if token.Signed? {
      var p := token.payload;
      assert TokenOk(cfg, w, p);
      var id := p.sid.value;
      if w.now < ExpiryOf(cfg, w, id) && Read(w.backend, id).Some? {
        var first := Read(w.backend, id).value;
        assert LinkOk(w, first);
        if first.supersededBy.Some? {
          assert BirthOk(cfg, w, first.supersededBy.value);
        }
      }
    }
  }

  /** Writing the same record to both. */
  lemma WriteAlike(cfg: Config, w: World, v: World, s: Stored)
    requires ValidConfig(cfg) && Alike(cfg, w, v) && cfg.absoluteTtlMs <= w.backend.ttlMs
    ensures Alike(cfg, w.(backend := Write(w.backend, s, w.now)), v.(backend := Write(v.backend, s, v.now)))
  {
    ReadAfterWrite(w.backend, s, w.now);
    ReadAfterWrite(v.backend, s, v.now);
  }

  lemma ReadAlike(cfg: Config, w: World, v: World, token: Presented, faults: Faults)
    requires Inv(cfg, w) && Inv(cfg, v) && Alike(cfg, w, v)
    requires token.Signed? ==> token.payload in w.tokens
    ensures var (r, b) := ReadSession(cfg, w.backend, token, w.now, faults);
            var (q, c) := ReadSession(cfg, v.backend, token, v.now, faults);
            r == q && Alike(cfg, w.(backend := b), v.(backend := c))
  {
    LocateAlike(cfg, w, v, token, faults);
    var l := Locate(cfg, w.backend, token, w.now, faults);
    if l.Landed? {
      WriteAlike(cfg, w, v, l.stored.(lastSeenAt := w.now));
    }
  }

  lemma FinishAlike(cfg: Config, w: World, v: World, s: Stored, claims: ClaimMap, faults: Faults)
    requires ValidConfig(cfg) && Alike(cfg, w, v) && cfg.absoluteTtlMs <= w.backend.ttlMs
    ensures var (r, b) := IssueFrom(cfg, w.backend, s, claims, w.now, faults);
            var (q, c) := IssueFrom(cfg, v.backend, s, claims, v.now, faults);
            r == q && Alike(cfg, w.(backend := b), v.(backend := c))
  {
    WriteAlike(cfg, w, v, s);
  }

  lemma SupersedeAlike(cfg: Config, w: World, v: World, id: Id, newId: Id, faults: Faults)
    requires ValidConfig(cfg) && Alike(cfg, w, v) && cfg.absoluteTtlMs <= w.backend.ttlMs
    requires Read(w.backend, id) == Read(v.backend, id)
    ensures var (r, b) := Supersede(cfg, w.backend, id, newId, w.now, faults);
            var (q, c) := Supersede(cfg, v.backend, id, newId, v.now, faults);
            r == q && Alike(cfg, w.(backend := b), v.(backend := c))
  {
    var found := Read(w.backend, id);
    if found.Some? {
      WriteAlike(cfg, w, v, MarkedRecord(cfg, w, found.value, newId));
    }
  }

  lemma RotateAlike(cfg: Config, w: World, v: World, token: Presented, changes: Option<ClaimMap>, newId: Id,
                    faults: Faults)
    requires Inv(cfg, w) && Inv(cfg, v) && Alike(cfg, w, v)
    requires newId !in w.born && newId != "" && (token.Signed? ==> token.payload in w.tokens)
    ensures var (w', r) := Step1(cfg, w, DoRotate(token, changes, newId, faults));
            var (v', q) := Step1(cfg, v, DoRotate(token, changes, newId, faults));
            r == q && Alike(cfg, w', v')
  {
    ReadAlike(cfg, w, v, token, faults);
    ReadOutcome(cfg, w, token, faults);
    ReadOutcome(cfg, v, token, faults);
    RotateSplits(cfg, w, token, changes, newId, faults);
    RotateSplits(cfg, v, token, changes, newId, faults);
    var b1 := ReadSession(cfg, w.backend, token, w.now, faults).1;
    var c1 := ReadSession(cfg, v.backend, token, v.now, faults).1;
    var w1, v1 := w.(backend := b1), v.(backend := c1);
    var going := Rotating(cfg, w, token, changes, faults);
    if going.Some? {
      var (current, claims) := going.value;
      MarkAlike(cfg, w1, v1, current, claims, newId, faults);
      if Supersede(cfg, b1, current.id, newId, w.now, faults).0 {
        FinishAlike(cfg, AfterMark(cfg, w1, current, claims, newId, faults),
                    AfterMark(cfg, v1, current, claims, newId, faults),
                    SuccessorOf(current, claims, newId, w.now), claims, faults);
      }
    }
  }

  lemma MarkAlike(cfg: Config, w: World, v: World, current: Session, claims: ClaimMap, newId: Id, faults: Faults)
    requires Inv(cfg, w) && Inv(cfg, v) && Alike(cfg, w, v)
    requires current.id in w.born && w.now < ExpiryOf(cfg, w, current.id) && newId !in w.born
    ensures var marked := Supersede(cfg, w.backend, current.id, newId, w.now, faults);
            && marked.0 == Supersede(cfg, v.backend, current.id, newId, v.now, faults).0
            && (!marked.0 ==> Alike(cfg, w, v))
            && (marked.0 ==> Alike(cfg, AfterMark(cfg, w, current, claims, newId, faults),
                                   AfterMark(cfg, v, current, claims, newId, faults)))
  {
    UnbornUnlisted(cfg, w, newId);
    UnbornUnlisted(cfg, v, newId);
    SupersedeAlike(cfg, w, v, current.id, newId, faults);
    SupersedeAddsNone(cfg, w.backend, current.id, newId, w.now, faults);
    SupersedeAddsNone(cfg, v.backend, current.id, newId, v.now, faults);
  }

  lemma SupersedeAddsNone(cfg: Config, b: Backend, id: Id, newId: Id, now: int, faults: Faults)
    requires b != NoStore && (b.Indexed? ==> 0 < b.ttlMs)
    requires Read(b, newId).None? && (Read(b, id).Some? ==> Read(b, id).value.id == id)
    ensures Read(Supersede(cfg, b, id, newId, now, faults).1, newId).None?
  {
    var found := Read(b, id);
    if found.Some? {
      ReadAfterWrite(b, found.value.(supersededAt := Some(now + cfg.rotationOverlapMs), supersededBy := Some(newId)),
                     now);
    }
  }

  lemma DestroyAllAlike(cfg: Config, w: World, v: World, subject: Subject)
    requires Inv(cfg, w) && Inv(cfg, v) && Alike(cfg, w, v)
    ensures Alike(cfg, w.(backend := DestroyForSubject(w.backend, subject).0),
                  v.(backend := DestroyForSubject(v.backend, subject).0))
  {
    var b, c := DestroyForSubject(w.backend, subject).0, DestroyForSubject(v.backend, subject).0;
    forall id | id in w.born && w.now < ExpiryOf(cfg, w, id)
      ensures Read(b, id) == Read(c, id)
    {
      SurvivorsOfDestroyAll(cfg, w, subject, id);
      if id in w.backend.sessions {
        assert Read(w.backend, id).Some?;
        assert Names(w.backend, subject, id) <==> id in IndexedIds(w.backend, subject);
      }
    }
  }

  lemma IssueAlike(cfg: Config, w: World, v: World, step: Step)
    requires Inv(cfg, w) && Inv(cfg, v) && Alike(cfg, w, v) && Enabled(w, step) && step.DoIssue?
    ensures var (w', r) := Step1(cfg, w, step);
            var (v', q) := Step1(cfg, v, step);
            Answer(r) == Answer(q) && Alike(cfg, w', v')
  {
  }

  lemma DestroyAlike(cfg: Config, w: World, v: World, token: Presented, faults: Faults)
    requires Inv(cfg, w) && Inv(cfg, v) && Alike(cfg, w, v)
    ensures var (r, b) := DestroySession(w.backend, token, w.now, faults);
            var (q, c) := DestroySession(v.backend, token, v.now, faults);
            r == q && Alike(cfg, w.(backend := b), v.(backend := c))
  {
  }

  lemma StepAlike(cfg: Config, w: World, v: World, step: Step)
    requires Inv(cfg, w) && Inv(cfg, v) && Alike(cfg, w, v) && Enabled(w, step)
    ensures var (w', r) := Step1(cfg, w, step);
            var (v', q) := Step1(cfg, v, step);
            Answer(r) == Answer(q) && Alike(cfg, w', v')
  {
    match step
    case Tick(ms) =>
    case DoIssue(_, _, newId, _) => IssueAlike(cfg, w, v, step);
    case DoRead(token, faults) => ReadAlike(cfg, w, v, token, faults);
    case DoRotate(token, changes, newId, faults) => RotateAlike(cfg, w, v, token, changes, newId, faults);
    case DoDestroy(token, faults) => DestroyAlike(cfg, w, v, token, faults);
    case DoDestroyAll(subject, faults) => DestroyAllAlike(cfg, w, v, subject);
  }

  lemma {:induction false} RunAlike(cfg: Config, w: World, v: World, steps: seq<Step>)
    requires Inv(cfg, w) && Inv(cfg, v) && Alike(cfg, w, v) && Admissible(cfg, w, steps)
    ensures SameAnswers(cfg, w, v, steps) && Admissible(cfg, v, steps)
    decreases steps
  {
    if steps != [] {
      StepAlike(cfg, w, v, steps[0]);
      StepKeepsInv(cfg, w, steps[0]);
      StepKeepsInv(cfg, v, steps[0]);
      RunAlike(cfg, Step1(cfg, w, steps[0]).0, Step1(cfg, v, steps[0]).0, steps[1..]);
    }
  }

  /**
   * From a fresh deployment, every run gets the same answers from the storage-backed store
   * as from the reference store, call by call.
   */
  lemma {:induction false} StorageStoreRefinesReference(cfg: Config, w: World, steps: seq<Step>)
    requires Initial(cfg, w) && w.backend.Indexed? && Admissible(cfg, w, steps)
    ensures SameAnswers(cfg, w, w.(backend := Reference(map[])), steps)
  {
    var v := w.(backend := Reference(map[]));
    InitialInv(cfg, w);
    InitialInv(cfg, v);
    RunAlike(cfg, w, v, steps);
  }
}
