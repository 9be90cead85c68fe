/** Every engine call keeps the invariant of `SessionRuns`, so every run does. */
module SessionInvariants {
  import opened Wrappers
  import opened Claims
  import opened SessionStore
  import opened SessionEngine
  import opened SessionRuns

  // ---------------------------------------------------------------------------------------
  // What the backend operations do to records and tables

  lemma ReadAfterWrite(b: Backend, s: Stored, now: int)
    requires b != NoStore
    requires b.Indexed? ==> 0 < b.ttlMs
    ensures forall id :: Read(Write(b, s, now), id) == if id == s.id then Some(s) else Read(b, id)
  {
  }

  lemma ReadAfterDestroy(b: Backend, id: Id, now: int)
    requires b != NoStore
    ensures forall x :: Read(Destroy(b, id, now), x) == if x == id then None else Read(b, x)
  {
  }

  ghost predicate Unlisted(b: Backend, id: Id) {
    b.Indexed? ==> forall subject {:trigger Names(b, subject, id)} :: !Names(b, subject, id)
  }

  lemma NamesAfterWrite(b: Backend, s: Stored, now: int)
    requires b.Indexed?
    ensures forall subject, id {:trigger Names(Write(b, s, now), subject, id)} ::
              Names(Write(b, s, now), subject, id) ==>
                Names(b, subject, id) || (subject == s.subject && id == s.id)
  {
  }

  /**
   * Writing keeps the tables in order: a live record keeps the index entry it has, and a
   * fresh one renews it beyond every session the subject can still have.
   */
  lemma TablesAfterWrite(cfg: Config, w: World, s: Stored)
    requires Inv(cfg, w) && s.id in w.born && s.subject == w.born[s.id].subject
    requires w.now < s.absoluteExpiresAt <= w.now + cfg.absoluteTtlMs
    requires match Read(w.backend, s.id)
             case None => Unlisted(w.backend, s.id)
             case Some(r) => r.subject == s.subject && r.absoluteExpiresAt == s.absoluteExpiresAt
    ensures TablesOk(cfg, w.(backend := Write(w.backend, s, w.now)))
  {
    var b, b' := w.backend, Write(w.backend, s, w.now);
    if b.Indexed? {
      NamesAfterWrite(b, s, w.now);
      assert Names(b, s.subject, s.id) <==> s.id in IndexedIds(b, s.subject);
      forall id | id in b'.sessions && w.now < b'.sessions[id].value.absoluteExpiresAt
        ensures Listed(b', b'.sessions[id].value)
      {
        var r := b'.sessions[id].value;
        if id != s.id {
          assert Read(b, id) == Some(r);
          assert Listed(b, r);
          assert BirthOk(cfg, w, id);
        } else if id in b.sessions {
          assert Listed(b, b.sessions[id].value);
        }
      }
    }
  }

  lemma UnlistedAfterWrite(cfg: Config, w: World, s: Stored, id: Id)
    requires Unlisted(w.backend, id) && id != s.id
    ensures Unlisted(Write(w.backend, s, w.now), id)
  {
    if w.backend.Indexed? {
      NamesAfterWrite(w.backend, s, w.now);
    }
  }

  // ---------------------------------------------------------------------------------------
  // The parts of a call

  /** What `Locate` finds for a signed token: a live record true to its birth, one hop away at most. */
  ghost predicate LandedOk(cfg: Config, w: World, sid: Id, s: Stored, renewed: Option<Payload>) {
    && sid in w.born
    && TrueToBirth(cfg, w, s)
    && w.now < s.absoluteExpiresAt
    && (w.backend != NoStore ==> Read(w.backend, s.id) == Some(s))
    && (renewed.None? ==> s.id == sid && s.id !in w.marks)
    && (renewed.Some? ==>
          && renewed.value == Encode(cfg, s)
          && w.born[s.id].parent == Some(sid)
          && sid in w.marks && w.now <= w.marks[sid].deadline)
  }

  lemma LocateLands(cfg: Config, w: World, token: Presented, faults: Faults)
    requires Inv(cfg, w)
    requires token.Signed? ==> token.payload in w.tokens
    requires Locate(cfg, w.backend, token, w.now, faults).Landed?
    ensures var l := Locate(cfg, w.backend, token, w.now, faults);
            token.Signed? && token.payload.sid.Some?
            && LandedOk(cfg, w, token.payload.sid.value, l.stored, l.renewed)
  {
    var p := token.payload;
    assert TokenOk(cfg, w, p);
    var sid := p.sid.value;
    var first := ResolveStored(cfg, w.backend, sid, p, faults).record.value;
    assert BirthOk(cfg, w, sid);
    if w.backend != NoStore {
      assert Read(w.backend, sid) == Some(first);
      if first.supersededAt.Some? {
        var next := first.supersededBy.value;
        assert Read(w.backend, next).Some?;
        assert BirthOk(cfg, w, next);
      }
    }
  }

  /** Births, overlap windows and tokens stay in order while only the backend and the clock move on. */
  lemma HistoryKept(cfg: Config, w: World, w': World)
    requires Inv(cfg, w)
    requires w' == w.(now := w'.now, backend := w'.backend)
    requires w.now <= w'.now && (w.backend == NoStore <==> w'.backend == NoStore)
    ensures BirthsOk(cfg, w') && MarksOk(cfg, w') && TokensOk(cfg, w')
  {
    forall id | id in w'.born ensures BirthOk(cfg, w', id) { assert BirthOk(cfg, w, id); }
    forall id | id in w'.marks ensures MarkOk(cfg, w', id) { assert MarkOk(cfg, w, id); }
    forall p | p in w'.tokens ensures TokenOk(cfg, w', p) { assert TokenOk(cfg, w, p); }
  }

  lemma TouchKeepsInv(cfg: Config, w: World, s: Stored)
    requires Inv(cfg, w)
    requires Read(w.backend, s.id) == Some(s) && w.now < s.absoluteExpiresAt
    ensures Inv(cfg, w.(backend := Write(w.backend, s.(lastSeenAt := w.now), w.now)))
  {
    var touched := s.(lastSeenAt := w.now);
    assert BirthOk(cfg, w, s.id);
    TablesAfterWrite(cfg, w, touched);
    ReadAfterWrite(w.backend, touched, w.now);
    HistoryKept(cfg, w, w.(backend := Write(w.backend, touched, w.now)));
  }

  lemma TokenKeepsInv(cfg: Config, w: World, p: Payload)
    requires Inv(cfg, w) && TokenOk(cfg, w, p)
    ensures Inv(cfg, w.(tokens := w.tokens + {p}))
  {
    var w' := w.(tokens := w.tokens + {p});
    assert BirthsOk(cfg, w') by {
      forall id | id in w'.born ensures BirthOk(cfg, w', id) { assert BirthOk(cfg, w, id); }
    }
    assert MarksOk(cfg, w') by {
      forall id | id in w'.marks ensures MarkOk(cfg, w', id) { assert MarkOk(cfg, w, id); }
    }
    assert TokensOk(cfg, w') by {
      forall q | q in w'.tokens ensures TokenOk(cfg, w', q) {
        assert q in w.tokens || q == p;
        assert TokenOk(cfg, w, q);
      }
    }
  }

  /** The world in which `newId` has been drawn for a session of `subject`. */
  ghost function Drawn(w: World, newId: Id, birth: Birth): World {
    w.(born := w.born[newId := birth])
  }

  lemma RootKeepsInv(cfg: Config, w: World, newId: Id, subject: Subject, claims: ClaimMap)
    requires Inv(cfg, w) && newId !in w.born && newId != ""
    ensures Inv(cfg, Drawn(w, newId, Birth(subject, claims, w.now, None, 0, w.now)))
  {
    var w' := Drawn(w, newId, Birth(subject, claims, w.now, None, 0, w.now));
    assert RecordsOk(cfg, w') by {
      forall id | Read(w'.backend, id).Some?
        ensures var s := Read(w'.backend, id).value; s.id == id && TrueToBirth(cfg, w', s) && LinkOk(w', s)
      {
        assert Read(w.backend, id).Some?;
      }
    }
    forall id | id in w'.born ensures BirthOk(cfg, w', id) {
      if id != newId { assert BirthOk(cfg, w, id); }
    }
    forall id | id in w'.marks ensures MarkOk(cfg, w', id) { assert MarkOk(cfg, w, id); }
    forall p | p in w'.tokens ensures TokenOk(cfg, w', p) { assert TokenOk(cfg, w, p); }
  }

  /** Writing the record of an id that was drawn and never stored. */
  lemma FreshWriteKeepsInv(cfg: Config, w: World, s: Stored)
    requires Inv(cfg, w) && w.backend != NoStore
    requires TrueToBirth(cfg, w, s) && s.supersededAt.None? && s.supersededBy.None?
    requires s.id !in w.marks && Read(w.backend, s.id).None? && Unlisted(w.backend, s.id)
    requires w.now < s.absoluteExpiresAt
    ensures Inv(cfg, w.(backend := Write(w.backend, s, w.now)))
  {
    assert BirthOk(cfg, w, s.id);
    TablesAfterWrite(cfg, w, s);
    ReadAfterWrite(w.backend, s, w.now);
    HistoryKept(cfg, w, w.(backend := Write(w.backend, s, w.now)));
  }

  ghost function MarkedRecord(cfg: Config, w: World, s: Stored, newId: Id): Stored {
    s.(supersededAt := Some(w.now + cfg.rotationOverlapMs), supersededBy := Some(newId))
  }

  /** The world after `s` is rotated away to the freshly drawn `newId`, which carries `claims`. */
  ghost function Superseded(cfg: Config, w: World, s: Stored, newId: Id, claims: ClaimMap): World
    requires s.id in w.born
  {
    Drawn(w, newId, Birth(s.subject, claims, s.createdAt, Some(s.id), w.born[s.id].depth + 1, w.now))
      .(backend := Write(w.backend, MarkedRecord(cfg, w, s, newId), w.now),
        marks := MarkedAway(cfg, w, s.id))
  }

  /**
   * A record is rotated away either for the first time, or again through its parent while
   * the parent's own window is open; both keep every overlap window within its bound.
   */
  lemma SupersedeKeepsInv(cfg: Config, w: World, s: Stored, newId: Id, claims: ClaimMap)
    requires Inv(cfg, w) && w.backend != NoStore
    requires Read(w.backend, s.id) == Some(s) && w.now < s.absoluteExpiresAt
    requires newId !in w.born && newId != ""
    requires s.id in w.born
    requires s.id in w.marks ==>
               && w.born[s.id].parent.Some?
               && w.born[s.id].parent.value in w.marks
               && w.now <= w.marks[w.born[s.id].parent.value].deadline
    ensures Inv(cfg, Superseded(cfg, w, s, newId, claims))
  {
    var marked := MarkedRecord(cfg, w, s, newId);
    var w' := Superseded(cfg, w, s, newId, claims);
    assert BirthOk(cfg, w, s.id);
    TablesAfterWrite(cfg, w, marked);
    ReadAfterWrite(w.backend, marked, w.now);
    SupersedeKeepsRecords(cfg, w, s, newId, claims);
    SupersedeKeepsBirths(cfg, w, s, newId, claims);
    SupersedeKeepsMarks(cfg, w, s, newId, claims);
    forall p | p in w'.tokens ensures TokenOk(cfg, w', p) { assert TokenOk(cfg, w, p); }
    hide RecordsOk, BirthsOk, BirthOk, MarksOk;
  }

  lemma SupersedeKeepsBirths(cfg: Config, w: World, s: Stored, newId: Id, claims: ClaimMap)
    requires Inv(cfg, w) && w.backend != NoStore
    requires newId !in w.born && newId != "" && s.id in w.born
    requires s.subject == w.born[s.id].subject && s.createdAt == w.born[s.id].root
    ensures BirthsOk(cfg, Superseded(cfg, w, s, newId, claims))
  {
    var w' := Superseded(cfg, w, s, newId, claims);
    assert s.id in w.marks ==> MarkOk(cfg, w, s.id);
    assert BirthOk(cfg, w, s.id);
    forall id | id in w'.born ensures BirthOk(cfg, w', id) {
      if id != newId { assert BirthOk(cfg, w, id); }
    }
  }

  lemma SupersedeKeepsMarks(cfg: Config, w: World, s: Stored, newId: Id, claims: ClaimMap)
    requires Inv(cfg, w) && w.backend != NoStore
    requires newId !in w.born && s.id in w.born
    requires s.id in w.marks ==>
               && w.born[s.id].parent.Some?
               && w.born[s.id].parent.value in w.marks
               && w.now <= w.marks[w.born[s.id].parent.value].deadline
    ensures MarksOk(cfg, Superseded(cfg, w, s, newId, claims))
  {
    var w' := Superseded(cfg, w, s, newId, claims);
    forall id | id in w'.marks ensures MarkOk(cfg, w', id) {
      assert id in w.marks ==> MarkOk(cfg, w, id);
      assert id != newId;
      assert BirthOk(cfg, w, id);
      assert s.id in w.marks ==> MarkOk(cfg, w, s.id);
    }
  }

  lemma SupersedeKeepsRecords(cfg: Config, w: World, s: Stored, newId: Id, claims: ClaimMap)
    requires Inv(cfg, w) && w.backend != NoStore
    requires Read(w.backend, s.id) == Some(s)
    requires newId !in w.born && s.id in w.born
    ensures RecordsOk(cfg, Superseded(cfg, w, s, newId, claims))
  {
    var marked := MarkedRecord(cfg, w, s, newId);
    var w' := Superseded(cfg, w, s, newId, claims);
    ReadAfterWrite(w.backend, marked, w.now);
    assert newId in w.marks ==> MarkOk(cfg, w, newId);
    forall id | Read(w'.backend, id).Some?
      ensures var r := Read(w'.backend, id).value; r.id == id && TrueToBirth(cfg, w', r) && LinkOk(w', r)
    {
      if id != s.id {
        var r := Read(w.backend, id).value;
        assert Read(w'.backend, id).value == r;
        assert LinkOk(w, r);
        if id in w.marks { assert MarkOk(cfg, w, id); }
      } else {
        assert newId !in w'.marks;
      }
    }
  }

  lemma DestroyKeepsInv(cfg: Config, w: World, id: Id)
    requires Inv(cfg, w) && w.backend != NoStore
    ensures Inv(cfg, w.(backend := Destroy(w.backend, id, w.now)))
  {
    var b, w' := w.backend, w.(backend := Destroy(w.backend, id, w.now));
    ReadAfterDestroy(b, id, w.now);
    HistoryKept(cfg, w, w');
    assert TablesOk(cfg, w') by {
      if b.Indexed? && id in b.sessions {
        var subject := b.sessions[id].value.subject;
        WithoutMembers(IndexedIds(b, subject), id);
        assert forall subject, x {:trigger Names(w'.backend, subject, x)} ::
            Names(w'.backend, subject, x) ==> Names(w.backend, subject, x);
        forall x | x in w'.backend.sessions && w.now < w'.backend.sessions[x].value.absoluteExpiresAt
          ensures Listed(w'.backend, w'.backend.sessions[x].value)
        {
          var r := b.sessions[x].value;
          assert Read(b, x) == Some(r);
          assert Listed(b, r);
          assert BirthOk(cfg, w, x);
        }
      } else if b.Indexed? {
        assert forall subject, x {:trigger Names(w'.backend, subject, x)} ::
            Names(w'.backend, subject, x) ==> Names(w.backend, subject, x);
        forall x | x in w'.backend.sessions && w.now < w'.backend.sessions[x].value.absoluteExpiresAt
          ensures Listed(w'.backend, w'.backend.sessions[x].value)
        {
          assert Listed(b, b.sessions[x].value);
        }
      }
    }
  }

  /** The sessions that survive are other subjects', or have reached their absolute expiry. */
  lemma SurvivorsOfDestroyAll(cfg: Config, w: World, subject: Subject, id: Id)
    requires Inv(cfg, w)
    ensures var r := Read(DestroyForSubject(w.backend, subject).0, id);
            r.Some? ==> r == Read(w.backend, id) && (r.value.subject != subject || r.value.absoluteExpiresAt <= w.now)
  {
    var r := Read(DestroyForSubject(w.backend, subject).0, id);
    if r.Some? {
      assert Read(w.backend, id) == r;
      if w.backend.Indexed? && w.now < r.value.absoluteExpiresAt {
        assert Listed(w.backend, w.backend.sessions[id].value);
      }
    }
  }

  lemma DestroyAllKeepsInv(cfg: Config, w: World, subject: Subject)
    requires Inv(cfg, w) && w.backend != NoStore
    ensures Inv(cfg, w.(backend := DestroyForSubject(w.backend, subject).0))
  {
    var b, w' := w.backend, w.(backend := DestroyForSubject(w.backend, subject).0);
    assert forall id :: Read(w'.backend, id).Some? ==> Read(w'.backend, id) == Read(b, id);
    HistoryKept(cfg, w, w');
    if b.Indexed? {
      assert forall subject, x {:trigger Names(w'.backend, subject, x)} ::
          Names(w'.backend, subject, x) ==> Names(w.backend, subject, x);
      forall id | id in w'.backend.sessions && w.now < w'.backend.sessions[id].value.absoluteExpiresAt
        ensures Listed(w'.backend, w'.backend.sessions[id].value)
      {
        assert Read(w'.backend, id).Some?;
        SurvivorsOfDestroyAll(cfg, w, subject, id);
        assert Listed(b, b.sessions[id].value);
      }
    }
  }

  lemma TickKeepsInv(cfg: Config, w: World, ms: nat)
    requires Inv(cfg, w)
    ensures Inv(cfg, w.(now := w.now + ms, backend := Expire(w.backend, w.now + ms)))
  {
    var w' := w.(now := w.now + ms, backend := Expire(w.backend, w.now + ms));
    assert forall id :: Read(w'.backend, id).Some? ==> Read(w'.backend, id) == Read(w.backend, id);
    HistoryKept(cfg, w, w');
    if w.backend.Indexed? {
      assert forall subject, x {:trigger Names(w'.backend, subject, x)} ::
          Names(w'.backend, subject, x) ==> Names(w.backend, subject, x);
      forall id | id in w'.backend.sessions && w'.now < w'.backend.sessions[id].value.absoluteExpiresAt
        ensures Listed(w'.backend, w'.backend.sessions[id].value)
      {
        assert Listed(w.backend, w.backend.sessions[id].value);
      }
    }
  }

  // ---------------------------------------------------------------------------------------
  // The calls

  lemma EncodedOk(cfg: Config, w: World, s: Stored)
    requires TrueToBirth(cfg, w, s)
    ensures TokenOk(cfg, w, Encode(cfg, s))
    ensures TrueToBirth(cfg, w, s.(lastSeenAt := w.now)) && TokenOk(cfg, w, Encode(cfg, s.(lastSeenAt := w.now)))
  {
  }

  /** A successful read: where its session comes from, and that sliding it keeps the invariant. */
  lemma ReadOutcome(cfg: Config, w: World, token: Presented, faults: Faults)
    requires Inv(cfg, w)
    requires token.Signed? ==> token.payload in w.tokens
    ensures var (r, b) := ReadSession(cfg, w.backend, token, w.now, faults);
            var w' := w.(backend := b);
            && Inv(cfg, w')
            && (b == NoStore <==> w.backend == NoStore)
            && (forall id :: Read(b, id).Some? <==> Read(w.backend, id).Some?)
            && (r.ReadOk? ==>
                  && TrueToBirth(cfg, w, Stored(r.session.id, r.session.subject, r.session.claims,
                                                r.session.createdAt, r.session.lastSeenAt,
                                                r.session.absoluteExpiresAt, None, None))
                  && w.now < r.session.absoluteExpiresAt
                  && (w.backend != NoStore ==> Read(b, r.session.id).Some?)
                  && (forall p :: p in RenewedBy(r) ==> TokenOk(cfg, w, p))
                  && (r.session.id in w.marks ==>
                        && w.born[r.session.id].parent.Some?
                        && w.born[r.session.id].parent.value in w.marks
                        && w.now <= w.marks[w.born[r.session.id].parent.value].deadline))
  {
    var l := Locate(cfg, w.backend, token, w.now, faults);
    if l.Landed? {
      LocateLands(cfg, w, token, faults);
      var s := l.stored;
      assert BirthOk(cfg, w, s.id);
      EncodedOk(cfg, w, s);
      if w.backend != NoStore {
        TouchKeepsInv(cfg, w, s);
        ReadAfterWrite(w.backend, s.(lastSeenAt := w.now), w.now);
      }
    }
    hide Inv, TokenOk, Locate, Encode, Write, Read;
  }

  lemma UnbornUnlisted(cfg: Config, w: World, id: Id)
    requires Inv(cfg, w) && id !in w.born
    ensures Unlisted(w.backend, id) && Read(w.backend, id).None? && id !in w.marks
  {
    assert id in w.marks ==> MarkOk(cfg, w, id);
  }

  lemma IssueKeepsInv(cfg: Config, w: World, subject: Subject, claims: ClaimMap, newId: Id, faults: Faults)
    requires Inv(cfg, w) && newId !in w.born && newId != ""
    ensures Inv(cfg, Step1(cfg, w, DoIssue(subject, claims, newId, faults)).0)
  {
    var (r, b) := Issue(cfg, w.backend, subject, claims, newId, w.now, faults);
    if r.Issued? {
      var decoded := Decode(cfg.shape, claims).value;
      DecodeIdempotent(cfg.shape, claims);
      var s := Stored(newId, subject, decoded, w.now, w.now, w.now + cfg.absoluteTtlMs, None, None);
      var w1 := Drawn(w, newId, Birth(subject, decoded, w.now, None, 0, w.now));
      RootKeepsInv(cfg, w, newId, subject, decoded);
      UnbornUnlisted(cfg, w, newId);
      var w2 := w1.(backend := b);
      if w.backend != NoStore {
        FreshWriteKeepsInv(cfg, w1, s);
      }
      TokenKeepsInv(cfg, w2, Encode(cfg, s));
      assert Step1(cfg, w, DoIssue(subject, claims, newId, faults)).0 == w2.(tokens := w2.tokens + {Encode(cfg, s)});
    } else {
      assert Step1(cfg, w, DoIssue(subject, claims, newId, faults)).0 == w;
    }
  }

  lemma ReadKeepsInv(cfg: Config, w: World, token: Presented, faults: Faults)
    requires Inv(cfg, w)
    requires token.Signed? ==> token.payload in w.tokens
    ensures Inv(cfg, Step1(cfg, w, DoRead(token, faults)).0)
  {
    ReadOutcome(cfg, w, token, faults);
    var (r, b) := ReadSession(cfg, w.backend, token, w.now, faults);
    var w1 := w.(backend := b);
    if r.ReadOk? && r.renewed.Some? {
      assert r.renewed.value in RenewedBy(r);
      TokenKeepsInv(cfg, w1, r.renewed.value);
    } else {
      assert w1.(tokens := w1.tokens + {}) == w1;
    }
  }

  /** Drawing an id without a store, where rotation leaves no mark. */
  lemma DrawChildKeepsInv(cfg: Config, w: World, newId: Id, parent: Id, claims: ClaimMap)
    requires Inv(cfg, w) && w.backend == NoStore
    requires newId !in w.born && newId != "" && parent in w.born
    ensures var p := w.born[parent];
            Inv(cfg, Drawn(w, newId, Birth(p.subject, claims, p.root, Some(parent), p.depth + 1, w.now)))
  {
    var p := w.born[parent];
    var w' := Drawn(w, newId, Birth(p.subject, claims, p.root, Some(parent), p.depth + 1, w.now));
    assert BirthOk(cfg, w, parent);
    assert BirthsOk(cfg, w') by {
      forall id | id in w'.born ensures BirthOk(cfg, w', id) {
        if id != newId { assert BirthOk(cfg, w, id); }
      }
    }
    assert TokensOk(cfg, w') by {
      forall q | q in w'.tokens ensures TokenOk(cfg, w', q) { assert TokenOk(cfg, w, q); }
    }
    hide BirthsOk, TokensOk;
  }

  /** The world once a rotation has drawn `newId` and marked the record it leaves behind. */
  ghost function AfterMark(cfg: Config, w: World, current: Session, claims: ClaimMap, newId: Id, faults: Faults)
    : World
  {
    w.(backend := Supersede(cfg, w.backend, current.id, newId, w.now, faults).1,
       born := w.born[newId := Birth(current.subject, claims, current.createdAt, Some(current.id),
                                     if current.id in w.born then w.born[current.id].depth + 1 else 1, w.now)],
       marks := if Read(w.backend, current.id).Some? then MarkedAway(cfg, w, current.id) else w.marks)
  }

  /** A rotation is a read, then a marking, then an issue. */
  lemma RotateSplits(cfg: Config, w: World, token: Presented, changes: Option<ClaimMap>, newId: Id, faults: Faults)
    ensures var (w', r) := Step1(cfg, w, DoRotate(token, changes, newId, faults));
            var (read, b1) := ReadSession(cfg, w.backend, token, w.now, faults);
            var w1 := w.(backend := b1);
            match Rotating(cfg, w, token, changes, faults)
            case None =>
              w' == w1 && r == IssueDone(IssueFailed(if read.ReadFailed? then read.error
                                                     else InvalidToken(ClaimsToken)))
            case Some((current, claims)) =>
              && read.ReadOk? && read.session == current &&
                   Decode(cfg.shape, changes.GetOr(current.claims)) == Some(claims)
              && var marked := Supersede(cfg, b1, current.id, newId, w.now, faults);
                 if !marked.0 then w' == w1 && r == IssueDone(IssueFailed(StoreError))
                 else
                   var w2 := AfterMark(cfg, w1, current, claims, newId, faults);
                   var issued := IssueFrom(cfg, w2.backend, SuccessorOf(current, claims, newId, w.now), claims, w.now,
                                           faults);
                   w' == w2.(backend := issued.1, tokens := w2.tokens + Minted(issued.0)) && r == IssueDone(issued.0)
  {
    assert w.tokens + {} == w.tokens;
  }

  lemma RotateKeepsInv(cfg: Config, w: World, token: Presented, changes: Option<ClaimMap>, newId: Id, faults: Faults)
    requires Inv(cfg, w) && newId !in w.born && newId != ""
    requires token.Signed? ==> token.payload in w.tokens
    ensures Inv(cfg, Step1(cfg, w, DoRotate(token, changes, newId, faults)).0)
  {
    ReadOutcome(cfg, w, token, faults);
    RotateSplits(cfg, w, token, changes, newId, faults);
    var b1 := ReadSession(cfg, w.backend, token, w.now, faults).1;
    var w1 := w.(backend := b1);
    var going := Rotating(cfg, w, token, changes, faults);
    if going.Some? {
      var (current, claims) := going.value;
      DecodeIdempotent(cfg.shape, changes.GetOr(current.claims));
      if Supersede(cfg, b1, current.id, newId, w.now, faults).0 {
        RotateMarks(cfg, w1, current, claims, newId, faults);
        RotateFinish(cfg, AfterMark(cfg, w1, current, claims, newId, faults), current, claims, newId, faults);
      }
    }
  }

  /** The first part of a rotation: the new id is drawn and the record left behind is marked. */
  lemma {:induction false} RotateMarks(cfg: Config, w: World, current: Session, claims: ClaimMap, newId: Id,
                                       faults: Faults)
    requires Inv(cfg, w) && newId !in w.born && newId != ""
    requires TrueToBirth(cfg, w, SuccessorOf(current, current.claims, current.id, w.now))
    requires Decode(cfg.shape, claims) == Some(claims)
    requires w.now < current.absoluteExpiresAt
    requires w.backend != NoStore ==> Read(w.backend, current.id).Some?
    requires current.id in w.marks ==>
               && w.born[current.id].parent.Some?
               && w.born[current.id].parent.value in w.marks
               && w.now <= w.marks[w.born[current.id].parent.value].deadline
    requires Supersede(cfg, w.backend, current.id, newId, w.now, faults).0
    ensures var w' := AfterMark(cfg, w, current, claims, newId, faults);
            && Inv(cfg, w') && newId in w'.born && newId !in w'.marks && w'.now == w.now
            && Read(w'.backend, newId).None? && Unlisted(w'.backend, newId)
            && w'.born[newId].at == w.now
            && TrueToBirth(cfg, w', SuccessorOf(current, claims, newId, w.now))
  {
    UnbornUnlisted(cfg, w, newId);
    assert BirthOk(cfg, w, current.id);
    if w.backend == NoStore {
      DrawChildKeepsInv(cfg, w, newId, current.id, claims);
    } else {
      var s := Read(w.backend, current.id).value;
      assert TrueToBirth(cfg, w, s);
      SupersedeKeepsInv(cfg, w, s, newId, claims);
      ReadAfterWrite(w.backend, MarkedRecord(cfg, w, s, newId), w.now);
      UnlistedAfterWrite(cfg, w, MarkedRecord(cfg, w, s, newId), newId);
    }
    hide Inv, Write, Unlisted, BirthOk;
  }

  /** The last part of a rotation: storing the successor and signing its token. */
  lemma {:induction false} RotateFinish(cfg: Config, w: World, current: Session, claims: ClaimMap, newId: Id,
                                        faults: Faults)
    requires Inv(cfg, w) && newId in w.born && newId !in w.marks
    requires Read(w.backend, newId).None? && Unlisted(w.backend, newId)
    requires Decode(cfg.shape, claims) == Some(claims)
    requires w.born[newId].at == w.now
    requires TrueToBirth(cfg, w, SuccessorOf(current, claims, newId, w.now))
    requires w.now < current.absoluteExpiresAt
    ensures var r := IssueFrom(cfg, w.backend, SuccessorOf(current, claims, newId, w.now), claims, w.now, faults);
            Inv(cfg, w.(backend := r.1, tokens := w.tokens + Minted(r.0)))
  {
    var s := SuccessorOf(current, claims, newId, w.now);
    var r := IssueFrom(cfg, w.backend, s, claims, w.now, faults);
    var w1 := w.(backend := r.1);
    if w.backend != NoStore && r.0.Issued? {
      FreshWriteKeepsInv(cfg, w, s);
    }
    if r.0.Issued? {
      TokenKeepsInv(cfg, w1, Encode(cfg, s));
    } else {
      assert w1.tokens + {} == w1.tokens;
    }
  }

  lemma StepKeepsInv(cfg: Config, w: World, step: Step)
    requires Inv(cfg, w) && Enabled(w, step)
    ensures Inv(cfg, Step1(cfg, w, step).0)
  {
    match step
    case Tick(ms) => TickKeepsInv(cfg, w, ms);
    case DoIssue(subject, claims, newId, faults) => IssueKeepsInv(cfg, w, subject, claims, newId, faults);
    case DoRead(token, faults) => ReadKeepsInv(cfg, w, token, faults);
    case DoRotate(token, changes, newId, faults) => RotateKeepsInv(cfg, w, token, changes, newId, faults);
    case DoDestroy(token, faults) =>
      if w.backend != NoStore && token.Signed? && token.payload.sid.Some? {
        DestroyKeepsInv(cfg, w, token.payload.sid.value);
      }
    case DoDestroyAll(subject, faults) =>
      if w.backend != NoStore {
        DestroyAllKeepsInv(cfg, w, subject);
      }
  }

  /** Every run from a world that satisfies the invariant ends in one. */
  lemma {:induction false} RunKeepsInv(cfg: Config, w: World, steps: seq<Step>)
    requires Inv(cfg, w) && Admissible(cfg, w, steps)
    ensures Inv(cfg, Run(cfg, w, steps))
    decreases steps
  {
    if steps != [] {
      StepKeepsInv(cfg, w, steps[0]);
      RunKeepsInv(cfg, Step1(cfg, w, steps[0]).0, steps[1..]);
    }
  }

  lemma InitialInv(cfg: Config, w: World)
    requires Initial(cfg, w)
    ensures Inv(cfg, w)
  {
  }
}
