/**
 * Session persistence: the record type, the backends an engine can sit on, and the two
 * stores of the repository. `Indexed` is the storage-backed store (records plus a
 * subject-to-ids index, both with a time to live), `Reference` the store that keeps
 * plain records and scans them.
 */
module SessionStore {
  import opened Wrappers
  import opened Claims
  import opened TtlStorage

  type Id = string
  type Subject = string

  datatype Stored = Stored(
    id: Id,
    subject: Subject,
    claims: ClaimMap,
    createdAt: int,
    lastSeenAt: int,
    absoluteExpiresAt: int,
    supersededAt: Option<int>,
    supersededBy: Option<Id>)

  /**
   * What a backend holds, as far as callers can observe it: an `Indexed` value lists
   * only entries whose time to live has not passed (`Expire` drops the others).
   */
  datatype Backend =
    | NoStore
    | Indexed(sessions: map<Id, Entry<Stored>>, subjects: map<Subject, Entry<seq<Id>>>, ttlMs: int)
    | Reference(records: map<Id, Stored>)

  function Read(b: Backend, id: Id): Option<Stored> {
    match b
    case NoStore => None
    case Indexed(sessions, _, _) => Lookup(sessions, id)
    case Reference(records) => if id in records then Some(records[id]) else None
  }

  function IndexedIds(b: Backend, subject: Subject): seq<Id>
    requires b.Indexed?
  {
    Lookup(b.subjects, subject).GetOr([])
  }

  /** Adds an id to a subject's index entry; a known id leaves the entry and its deadline alone. */
  function IndexSubject(b: Backend, subject: Subject, id: Id, now: int): Backend
    requires b.Indexed?
  {
    var existing := IndexedIds(b, subject);
    if id in existing then b
    else b.(subjects := Put(b.subjects, subject, existing + [id], now, b.ttlMs))
  }

  function Write(b: Backend, s: Stored, now: int): Backend {
    match b
    case NoStore => NoStore
    case Indexed(sessions, _, ttlMs) =>
      IndexSubject(b.(sessions := Put(sessions, s.id, s, now, ttlMs)), s.subject, s.id, now)
    case Reference(records) => Reference(records[s.id := s])
  }

  function Without(ids: seq<Id>, id: Id): seq<Id> {
    if ids == [] then [] else (if ids[0] == id then [] else [ids[0]]) + Without(ids[1..], id)
  }

  function Destroy(b: Backend, id: Id, now: int): Backend {
    match b
    case NoStore => NoStore
    case Reference(records) => Reference(records - {id})
    case Indexed(sessions, subjects, ttlMs) =>
      var pruned := b.(sessions := sessions - {id});
      if id !in sessions then pruned
      else
        var subject := sessions[id].value.subject;
        var remaining := Without(IndexedIds(b, subject), id);
        if remaining == [] then pruned.(subjects := subjects - {subject})
        else pruned.(subjects := Put(subjects, subject, remaining, now, ttlMs))
  }

  function OwnedBy(records: map<Id, Stored>, subject: Subject): set<Id> {
    set id | id in records && records[id].subject == subject
  }

  /** Removes a subject's sessions: those the index lists, or those a scan finds. */
  function DestroyForSubject(b: Backend, subject: Subject): (Backend, nat) {
    match b
    case NoStore => (NoStore, 0)
    case Reference(records) =>
      (Reference(records - OwnedBy(records, subject)), |OwnedBy(records, subject)|)
    case Indexed(sessions, subjects, ttlMs) =>
      var ids := IndexedIds(b, subject);
      (Indexed(sessions - (set id | id in ids), subjects - {subject}, ttlMs), |ids|)
  }

  /** The passage of time: entries past their lifetime stop being observable. */
  ghost function Expire(b: Backend, now: int): Backend {
    if b.Indexed? then b.(sessions := LiveAt(b.sessions, now), subjects := LiveAt(b.subjects, now)) else b
  }

  lemma {:induction false} WithoutMembers(ids: seq<Id>, id: Id)
    ensures forall x :: x in Without(ids, id) <==> x in ids && x != id
  {
    if ids != [] {
      WithoutMembers(ids[1..], id);
      assert ids == [ids[0]] + ids[1..];
    }
  }

  // ---------------------------------------------------------------------------------------
  // The storage-backed store

  class StorageSessionStore {
    const ttlMs: int
    const sessions: TtlMap<Id, Stored>
    const subjects: TtlMap<Subject, seq<Id>>

    ghost predicate Valid() {
      (sessions as object) != (subjects as object)
    }

    /** What the store holds for an observer at `now`. */
    ghost function View(now: int): Backend
      reads sessions, subjects
    {
      Indexed(LiveAt(sessions.entries, now), LiveAt(subjects.entries, now), ttlMs)
    }

    constructor (ttlMs: int)
      ensures Valid() && fresh(sessions) && fresh(subjects)
      ensures this.ttlMs == ttlMs
      ensures forall t :: View(t) == Indexed(map[], map[], ttlMs)
    {
      this.ttlMs := ttlMs;
      sessions := new TtlMap();
      subjects := new TtlMap();
    }

    /** Waiting changes what the store shows just as `Expire` says, with no call made. */
    lemma ViewExpires(t0: int, t1: int)
      requires t0 <= t1
      ensures View(t1) == Expire(View(t0), t1)
    {
      LiveAtComposes(sessions.entries, t0, t1);
      LiveAtComposes(subjects.entries, t0, t1);
    }

    method ReadRecord(id: Id, now: int) returns (r: Option<Stored>)
      requires Valid()
      modifies sessions
      ensures r == Read(old(View(now)), id)
      ensures View(now) == old(View(now))
    {
      r := sessions.Get(id, now);
    }

    method AddToIndex(subject: Subject, id: Id, now: int)
      requires Valid()
      modifies subjects
      ensures View(now) == IndexSubject(old(View(now)), subject, id, now)
    {
      var found := subjects.Get(subject, now);
      var existing := found.GetOr([]);
      if id in existing {
        return;
      }
      subjects.Set(subject, existing + [id], now, Some(ttlMs));
    }

    method WriteRecord(s: Stored, now: int)
      requires Valid()
      modifies sessions, subjects
      ensures View(now) == Write(old(View(now)), s, now)
    {
      sessions.Set(s.id, s, now, Some(ttlMs));
      AddToIndex(s.subject, s.id, now);
    }

    method DestroyRecord(id: Id, now: int)
      requires Valid()
      modifies sessions, subjects
      ensures View(now) == Destroy(old(View(now)), id, now)
    {
      var existing := sessions.Get(id, now);
      sessions.Delete(id);
      if existing.None? {
        return;
      }
      var subject := existing.value.subject;
      var found := subjects.Get(subject, now);
      var remaining := FilterOut(found.GetOr([]), id);
      if |remaining| == 0 {
        subjects.Delete(subject);
        return;
      }
      subjects.Set(subject, remaining, now, Some(ttlMs));
    }

    method DestroyAllFor(subject: Subject, now: int) returns (count: nat)
      requires Valid()
      modifies sessions, subjects
      ensures (View(now), count) == DestroyForSubject(old(View(now)), subject)
    {
      var found := subjects.Get(subject, now);
      var ids := found.GetOr([]);
      ghost var before := LiveAt(sessions.entries, now);
      for i := 0 to |ids|
        invariant LiveAt(sessions.entries, now) == before - (set id | id in ids[..i])
        invariant LiveAt(subjects.entries, now) == old(LiveAt(subjects.entries, now))
      {
        sessions.Delete(ids[i]);
        assert ids[..i + 1] == ids[..i] + [ids[i]];
      }
      assert ids[..|ids|] == ids;
      subjects.Delete(subject);
      return |ids|;
    }
  }

  method FilterOut(ids: seq<Id>, id: Id) returns (r: seq<Id>)
    ensures r == Without(ids, id)
  {
    r := [];
    var i := |ids|;
    while i > 0
      invariant 0 <= i <= |ids|
      invariant r == Without(ids[i..], id)
    {
      i := i - 1;
      assert ids[i..][1..] == ids[i + 1..];
      if ids[i] != id {
        r := [ids[i]] + r;
      }
    }
    assert ids[0..] == ids;
  }

  // ---------------------------------------------------------------------------------------
  // The reference store

  /** The subject's ids that the scan has met when `pending` is still to be visited. */
  ghost function Scanned(before: map<Id, Stored>, subject: Subject, pending: set<Id>): set<Id> {
    OwnedBy(before, subject) - pending
  }

  ghost function Unscanned(before: map<Id, Stored>, subject: Subject, pending: set<Id>): map<Id, Stored> {
    before - Scanned(before, subject, pending)
  }

  lemma ScanStart(before: map<Id, Stored>, subject: Subject)
    ensures Scanned(before, subject, before.Keys) == {}
    ensures Scanned(before, subject, {}) == OwnedBy(before, subject)
  {
  }

  lemma ScanStep(before: map<Id, Stored>, subject: Subject, pending: set<Id>, id: Id)
    requires id in pending && pending <= before.Keys
    ensures id in Unscanned(before, subject, pending)
    ensures Unscanned(before, subject, pending)[id] == before[id]
    ensures before[id].subject == subject ==>
              Unscanned(before, subject, pending - {id}) == Unscanned(before, subject, pending) - {id}
    ensures before[id].subject == subject ==>
              |Scanned(before, subject, pending - {id})| == |Scanned(before, subject, pending)| + 1
    ensures before[id].subject != subject ==>
              Scanned(before, subject, pending - {id}) == Scanned(before, subject, pending)
  {
    if before[id].subject == subject {
      assert Scanned(before, subject, pending - {id}) == Scanned(before, subject, pending) + {id};
    } else {
      assert Scanned(before, subject, pending - {id}) == Scanned(before, subject, pending);
    }
  }

  class MemorySessionStore {
    var sessions: map<Id, Stored>

    ghost function View(): Backend
      reads this
    {
      Reference(sessions)
    }

    constructor ()
      ensures View() == Reference(map[])
    {
      sessions := map[];
    }

    method ReadRecord(id: Id) returns (r: Option<Stored>)
      ensures r == Read(View(), id)
    {
      r := if id in sessions then Some(sessions[id]) else None;
    }

    method WriteRecord(s: Stored)
      modifies this
      ensures forall now :: View() == Write(old(View()), s, now)
    {
      sessions := sessions[s.id := s];
    }

    method DestroyRecord(id: Id)
      modifies this
      ensures forall now :: View() == Destroy(old(View()), id, now)
    {
      sessions := sessions - {id};
    }

    /** The scan: visits every record once and deletes the subject's own. */
    method DestroyAllFor(subject: Subject) returns (removed: nat)
      modifies this
      ensures (View(), removed) == DestroyForSubject(old(View()), subject)
    {
      ghost var before := sessions;
      var pending := sessions.Keys;
      removed := 0;
      ScanStart(before, subject);
      while pending != {}
        invariant pending <= before.Keys
        invariant sessions == Unscanned(before, subject, pending)
        invariant removed == |Scanned(before, subject, pending)|
        decreases pending
      {
        var id :| id in pending;
        ScanStep(before, subject, pending, id);
        if sessions[id].subject == subject {
          sessions := sessions - {id};
          removed := removed + 1;
        }
        pending := pending - {id};
      }
    }
  }
}
