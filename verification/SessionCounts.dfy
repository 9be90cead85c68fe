/**
 * The number that ending all sessions of a subject returns. The reference store counts what it
 * ends; the storage-backed store counts what its index lists, which is kept tight: no id
 * twice, and none whose record is gone before its session is past its lifetime.
 */
module SessionCounts {
  import opened Wrappers
  import opened Claims
  import opened SessionStore
  import opened SessionEngine
  import opened SessionRuns
  import opened SessionInvariants

  ghost predicate Distinct<T>(xs: seq<T>) {
    forall i, j :: 0 <= i < j < |xs| ==> xs[i] != xs[j]
  }

  ghost predicate Lapsed(cfg: Config, w: World, id: Id) {
    id in w.born && ExpiryOf(cfg, w, id) <= w.now
  }

  ghost predicate IndexTight(cfg: Config, w: World) {
    w.backend.Indexed? ==>
      && 0 < w.backend.ttlMs
      && (forall subject :: subject in w.backend.subjects ==> Distinct(w.backend.subjects[subject].value))
      && (forall subject, id {:trigger Names(w.backend, subject, id)} :: Names(w.backend, subject, id) ==>
            Read(w.backend, id).Some? || Lapsed(cfg, w, id))
  }

  // ---------------------------------------------------------------------------------------
  // Every call keeps the index tight

  lemma {:induction false} WriteKeepsTight(cfg: Config, w: World, s: Stored)
    requires IndexTight(cfg, w)
    ensures IndexTight(cfg, w.(backend := Write(w.backend, s, w.now)))
  {
    var w' := w.(backend := Write(w.backend, s, w.now));
    if w.backend.Indexed? {
      NamesAfterWrite(w.backend, s, w.now);
      ReadAfterWrite(w.backend, s, w.now);
      forall subject, id {:trigger Names(w'.backend, subject, id)} | Names(w'.backend, subject, id)
        ensures Read(w'.backend, id).Some? || Lapsed(cfg, w', id)
      {
        assert id != s.id ==> Names(w.backend, subject, id) && (Lapsed(cfg, w, id) ==> Lapsed(cfg, w', id));
      }
    }
  }

  lemma {:induction false} PersistKeepsTight(cfg: Config, w: World, s: Stored, rejects: bool)
    requires IndexTight(cfg, w)
    ensures IndexTight(cfg, w.(backend := Persist(w.backend, s, w.now, rejects).1))
  {
    WriteKeepsTight(cfg, w, s);
    assert w.(backend := w.backend) == w;
  }

  /** New births change nothing about the index. */
  lemma {:induction false} BirthsKeepTight(cfg: Config, w: World, w': World)
    requires IndexTight(cfg, w) && w'.backend == w.backend && w.now <= w'.now
    requires forall id :: id in w.born ==> id in w'.born && w'.born[id] == w.born[id]
    ensures IndexTight(cfg, w')
  {
    forall id | Lapsed(cfg, w, id) ensures Lapsed(cfg, w', id) {
    }
  }

  lemma {:induction false} ReadKeepsTight(cfg: Config, w: World, token: Presented, faults: Faults)
    requires IndexTight(cfg, w)
    ensures IndexTight(cfg, w.(backend := ReadSession(cfg, w.backend, token, w.now, faults).1))
  {
    var l := Locate(cfg, w.backend, token, w.now, faults);
    if l.Landed? {
      PersistKeepsTight(cfg, w, l.stored.(lastSeenAt := w.now), WriteTouched in faults);
    }
    assert w.(backend := w.backend) == w;
    hide IndexTight, Locate, Persist;
  }

  lemma {:induction false} RotateKeepsTight(cfg: Config, w: World, token: Presented, changes: Option<ClaimMap>,
                                            newId: Id, faults: Faults)
    requires Inv(cfg, w) && IndexTight(cfg, w) && newId !in w.born
    ensures IndexTight(cfg, Step1(cfg, w, DoRotate(token, changes, newId, faults)).0)
  {
    hide IndexTight, ReadSession, Persist, Decode, Inv, Read;
    RotateSplits(cfg, w, token, changes, newId, faults);
    ReadKeepsTight(cfg, w, token, faults);
    var b1 := ReadSession(cfg, w.backend, token, w.now, faults).1;
    var w1 := w.(backend := b1);
    var going := Rotating(cfg, w, token, changes, faults);
    if going.Some? && Supersede(cfg, b1, going.value.0.id, newId, w.now, faults).0 {
      var (current, claims) := going.value;
      var w2 := AfterMark(cfg, w1, current, claims, newId, faults);
      SupersedeKeepsTight(cfg, w1, current.id, newId, faults);
      BirthsKeepTight(cfg, w1.(backend := w2.backend), w2);
      var s := SuccessorOf(current, claims, newId, w.now);
      PersistKeepsTight(cfg, w2, s, WriteNew in faults);
      var w3 := Step1(cfg, w, DoRotate(token, changes, newId, faults)).0;
      BirthsKeepTight(cfg, w2.(backend := w3.backend), w3);
    }
  }

  lemma {:induction false} SupersedeKeepsTight(cfg: Config, w: World, id: Id, newId: Id, faults: Faults)
    requires IndexTight(cfg, w)
    ensures IndexTight(cfg, w.(backend := Supersede(cfg, w.backend, id, newId, w.now, faults).1))
  {
    var found := ReadRecord(w.backend, id, ReadPredecessor in faults);
    if found.Found? && found.record.Some? {
      PersistKeepsTight(cfg, w, found.record.value.(supersededAt := Some(w.now + cfg.rotationOverlapMs),
                                                    supersededBy := Some(newId)), WritePredecessor in faults);
    }
    assert w.(backend := w.backend) == w;
    hide IndexTight, Persist;
  }

  lemma {:induction false} WithoutDistinct(ids: seq<Id>, id: Id)
    requires Distinct(ids)
    ensures Distinct(Without(ids, id))
  {
    if ids != [] {
      WithoutDistinct(ids[1..], id);
      WithoutMembers(ids[1..], id);
      assert ids[0] !in ids[1..];
    }
  }

  lemma {:induction false} DestroyKeepsTight(cfg: Config, w: World, id: Id)
    requires Inv(cfg, w) && IndexTight(cfg, w) && w.backend != NoStore
    ensures IndexTight(cfg, w.(backend := Destroy(w.backend, id, w.now)))
  {
    var b, w' := w.backend, w.(backend := Destroy(w.backend, id, w.now));
    ReadAfterDestroy(b, id, w.now);
    if b.Indexed? {
      var subject := if id in b.sessions then b.sessions[id].value.subject else "";
      if id in b.sessions {
        assert Read(b, id) == Some(b.sessions[id].value);
        WithoutMembers(IndexedIds(b, subject), id);
        WithoutDistinct(IndexedIds(b, subject), id);
      }
      forall s, x {:trigger Names(w'.backend, s, x)} | Names(w'.backend, s, x)
        ensures Read(w'.backend, x).Some? || Lapsed(cfg, w', x)
      {
        assert Names(b, s, x);
        assert Lapsed(cfg, w, x) ==> Lapsed(cfg, w', x);
      }
    }
  }

  lemma {:induction false} DestroyAllKeepsTight(cfg: Config, w: World, subject: Subject)
    requires Inv(cfg, w) && IndexTight(cfg, w)
    ensures IndexTight(cfg, w.(backend := DestroyForSubject(w.backend, subject).0))
  {
    var b, w' := w.backend, w.(backend := DestroyForSubject(w.backend, subject).0);
    if b.Indexed? {
      forall s, x {:trigger Names(w'.backend, s, x)} | Names(w'.backend, s, x)
        ensures Read(w'.backend, x).Some? || Lapsed(cfg, w', x)
      {
        assert Names(b, s, x);
        assert Lapsed(cfg, w, x) ==> Lapsed(cfg, w', x);
        assert x in IndexedIds(b, subject) ==> Names(b, subject, x);
      }
    }
  }

  lemma {:induction false} TickKeepsTight(cfg: Config, w: World, ms: nat)
    requires Inv(cfg, w) && IndexTight(cfg, w)
    ensures IndexTight(cfg, Step1(cfg, w, Tick(ms)).0)
  {
    var w' := Step1(cfg, w, Tick(ms)).0;
    if w.backend.Indexed? {
      forall s, x {:trigger Names(w'.backend, s, x)} | Names(w'.backend, s, x)
        ensures Read(w'.backend, x).Some? || Lapsed(cfg, w', x)
      {
        assert Names(w.backend, s, x);
        if Read(w.backend, x).Some? {
          assert TrueToBirth(cfg, w, Read(w.backend, x).value);
        }
      }
    }
  }

  lemma {:induction false} StepKeepsTight(cfg: Config, w: World, step: Step)
    requires Inv(cfg, w) && IndexTight(cfg, w) && Enabled(w, step)
    ensures IndexTight(cfg, Step1(cfg, w, step).0)
  {
    var w' := Step1(cfg, w, step).0;
    match step
    case Tick(ms) => TickKeepsTight(cfg, w, ms);
    case DoIssue(subject, claims, newId, faults) =>
      if Decode(cfg.shape, claims).Some? {
        PersistKeepsTight(cfg, w, Stored(newId, subject, Decode(cfg.shape, claims).value, w.now, w.now,
                                         w.now + cfg.absoluteTtlMs, None, None), WriteNew in faults);
      }
      assert w.(backend := w.backend) == w;
      hide IndexTight;
      BirthsKeepTight(cfg, w.(backend := w'.backend), w');
    case DoRead(token, faults) =>
      ReadKeepsTight(cfg, w, token, faults);
      hide IndexTight;
      BirthsKeepTight(cfg, w.(backend := w'.backend), w');
    case DoRotate(token, changes, newId, faults) => RotateKeepsTight(cfg, w, token, changes, newId, faults);
    case DoDestroy(token, faults) =>
      if w.backend != NoStore && token.Signed? && token.payload.sid.Some? {
        DestroyKeepsTight(cfg, w, token.payload.sid.value);
      }
      assert w.(backend := w.backend) == w;
      hide IndexTight;
    case DoDestroyAll(subject, faults) =>
      DestroyAllKeepsTight(cfg, w, subject);
      assert w.(backend := w.backend) == w;
      hide IndexTight;
  }

  lemma {:induction false} RunKeepsTight(cfg: Config, w: World, steps: seq<Step>)
    requires Inv(cfg, w) && IndexTight(cfg, w) && Admissible(cfg, w, steps)
    ensures IndexTight(cfg, Run(cfg, w, steps))
    decreases steps
  {
    hide Inv, IndexTight, Step1;
    if steps != [] {
      StepKeepsInv(cfg, w, steps[0]);
      StepKeepsTight(cfg, w, steps[0]);
      RunKeepsTight(cfg, Step1(cfg, w, steps[0]).0, steps[1..]);
    }
  }

  // ---------------------------------------------------------------------------------------
  // The count

  /** The sessions that could be found before and cannot be any more. */
  ghost function Ended(w: World, w': World): set<Id> {
    set id | id in w.born && Read(w.backend, id).Some? && Read(w'.backend, id).None?
  }

  /** Ids the index still lists although their records have gone. */
  ghost function Leftovers(w: World, subject: Subject): set<Id>
    requires w.backend.Indexed?
  {
    set id | id in IndexedIds(w.backend, subject) && Read(w.backend, id).None?
  }

  lemma {:induction false} DistinctCount<T>(xs: seq<T>)
    requires Distinct(xs)
    ensures |set x | x in xs| == |xs|
  {
    if xs != [] {
      DistinctCount(xs[1..]);
      assert (set x | x in xs) == {xs[0]} + (set x | x in xs[1..]);
      assert xs[0] !in xs[1..];
    }
  }

  /**
   * The number ending all sessions returns. On the reference store it is how many were ended.
   * On the storage-backed store it also counts leftovers of the index, each of a session past
   * its absolute lifetime, and nothing else.
   */
  lemma {:induction false} EndedAreCounted(cfg: Config, w0: World, steps: seq<Step>, subject: Subject)
    requires Initial(cfg, w0) && Admissible(cfg, w0, steps)
    ensures var w := Run(cfg, w0, steps);
            var (w', r) := Step1(cfg, w, DoDestroyAll(subject, {}));
            && r.DestroyAllDone?
            && (w.backend.NoStore? ==> r.count == 0)
            && (w.backend.Reference? ==> r.count == |Ended(w, w')|)
            && (w.backend.Indexed? ==>
                  && r.count == |Ended(w, w')| + |Leftovers(w, subject)|
                  && forall id :: id in Leftovers(w, subject) ==> Lapsed(cfg, w, id))
  {
    InitialInv(cfg, w0);
    RunKeepsInv(cfg, w0, steps);
    RunKeepsTight(cfg, w0, steps);
    var w := Run(cfg, w0, steps);
    hide Run;
    CountOf(cfg, w, subject);
  }

  lemma {:induction false} CountOf(cfg: Config, w: World, subject: Subject)
    requires Inv(cfg, w) && IndexTight(cfg, w)
    ensures var (w', r) := Step1(cfg, w, DoDestroyAll(subject, {}));
            && r.DestroyAllDone?
            && (w.backend.NoStore? ==> r.count == 0)
            && (w.backend.Reference? ==> r.count == |Ended(w, w')|)
            && (w.backend.Indexed? ==>
                  && r.count == |Ended(w, w')| + |Leftovers(w, subject)|
                  && forall id :: id in Leftovers(w, subject) ==> Lapsed(cfg, w, id))
  {
    var w' := Step1(cfg, w, DoDestroyAll(subject, {})).0;
    if w.backend.Reference? {
      ScannedAreEnded(cfg, w, w', subject);
    } else if w.backend.Indexed? {
      var ids, left := IndexedIds(w.backend, subject), Leftovers(w, subject);
      ListedAreEnded(cfg, w, w', subject);
      DistinctCount(ids);
      hide Inv, IndexTight, Ended;
      assert Ended(w, w') !! left;
    }
  }

  lemma {:induction false} ScannedAreEnded(cfg: Config, w: World, w': World, subject: Subject)
    requires Inv(cfg, w) && w.backend.Reference?
    requires w'.backend == DestroyForSubject(w.backend, subject).0
    ensures Ended(w, w') == OwnedBy(w.backend.records, subject)
  {
    forall id | id in OwnedBy(w.backend.records, subject) ensures id in w.born {
      assert Read(w.backend, id).Some?;
    }
  }

  lemma {:induction false} ListedAreEnded(cfg: Config, w: World, w': World, subject: Subject)
    requires Inv(cfg, w) && IndexTight(cfg, w) && w.backend.Indexed?
    requires w'.backend == DestroyForSubject(w.backend, subject).0
    ensures var ids := IndexedIds(w.backend, subject);
            && Distinct(ids)
            && (set id | id in ids) == Ended(w, w') + Leftovers(w, subject)
            && Ended(w, w') !! Leftovers(w, subject)
            && forall id :: id in Leftovers(w, subject) ==> Lapsed(cfg, w, id)
  {
    var ids := IndexedIds(w.backend, subject);
    forall id | id in ids
      ensures id in w.born && (Read(w.backend, id).None? ==> Lapsed(cfg, w, id)) && Read(w'.backend, id).None?
    {
      assert Names(w.backend, subject, id);
    }
    forall id | id !in ids ensures Read(w'.backend, id) == Read(w.backend, id) {
    }
    hide Inv, IndexTight;
  }
}
