/**
 * Whole runs of a session engine: every sequence of calls, with time passing and store
 * calls failing in between. The world carries, beside the backend, what no call can undo:
 * the tokens signed so far, the birth of every session id and the overlap windows opened.
 */
module SessionRuns {
  import opened Wrappers
  import opened Claims
  import opened SessionStore
  import opened SessionEngine

  /** How an id came to be: by sign-in (no parent) or by rotating `parent` away; and with which claims. */
  datatype Birth = Birth(subject: Subject, claims: ClaimMap, root: int, parent: Option<Id>, depth: nat, at: int)

  /** When an id was first rotated away, and when its overlap window closes. */
  datatype Mark = Mark(first: int, deadline: int)

  datatype World = World(
    now: int,
    backend: Backend,
    tokens: set<Payload>,
    born: map<Id, Birth>,
    marks: map<Id, Mark>)

  datatype Step =
    | Tick(ms: nat)
    | DoIssue(subject: Subject, claims: ClaimMap, newId: Id, faults: Faults)
    | DoRead(token: Presented, faults: Faults)
    | DoRotate(token: Presented, changes: Option<ClaimMap>, newId: Id, faults: Faults)
    | DoDestroy(token: Presented, faults: Faults)
    | DoDestroyAll(subject: Subject, faults: Faults)

  datatype Result =
    | Ticked
    | IssueDone(issue: IssueResult)
    | ReadDone(read: ReadResult)
    | DestroyDone(revoked: bool)
    | DestroyAllDone(count: nat)

  /** Tokens cannot be forged and new ids are fresh; nothing else is assumed of callers. */
  ghost predicate Enabled(w: World, step: Step) {
    match step
    case Tick(_) => true
    case DoIssue(_, _, newId, _) => newId !in w.born && newId != ""
    case DoRead(token, _) => token.Signed? ==> token.payload in w.tokens
    case DoRotate(token, _, newId, _) =>
      newId !in w.born && newId != "" && (token.Signed? ==> token.payload in w.tokens)
    case DoDestroy(token, _) => token.Signed? ==> token.payload in w.tokens
    case DoDestroyAll(_, _) => true
  }

  function Minted(r: IssueResult): set<Payload> {
    if r.Issued? then {r.token} else {}
  }

  function RenewedBy(r: ReadResult): set<Payload> {
    if r.ReadOk? && r.renewed.Some? then {r.renewed.value} else {}
  }

  /** The session a rotation goes on from, with the claims it carries over. */
  function Rotating(cfg: Config, w: World, token: Presented, changes: Option<ClaimMap>, faults: Faults)
    : Option<(Session, ClaimMap)>
  {
    match ReadSession(cfg, w.backend, token, w.now, faults).0
    case ReadFailed(_) => None
    case ReadOk(current, _) =>
      match Decode(cfg.shape, changes.GetOr(current.claims))
      case None => None
      case Some(claims) => Some((current, claims))
  }

  ghost function MarkedAway(cfg: Config, w: World, id: Id): map<Id, Mark> {
    w.marks[id := Mark(if id in w.marks then w.marks[id].first else w.now, w.now + cfg.rotationOverlapMs)]
  }

  ghost function Step1(cfg: Config, w: World, step: Step): (World, Result) {
    match step
    case Tick(ms) => (w.(now := w.now + ms, backend := Expire(w.backend, w.now + ms)), Ticked)
    case DoIssue(subject, claims, newId, faults) =>
      var (r, b) := Issue(cfg, w.backend, subject, claims, newId, w.now, faults);
      (w.(backend := b, tokens := w.tokens + Minted(r),
          born := if r.Issued?
                  then w.born[newId := Birth(subject, Decode(cfg.shape, claims).value, w.now, None, 0, w.now)]
                  else w.born),
       IssueDone(r))
    case DoRead(token, faults) =>
      var (r, b) := ReadSession(cfg, w.backend, token, w.now, faults);
      (w.(backend := b, tokens := w.tokens + RenewedBy(r)), ReadDone(r))
    case DoRotate(token, changes, newId, faults) =>
      var (r, b) := Rotate(cfg, w.backend, token, changes, newId, w.now, faults);
      var w' := w.(backend := b, tokens := w.tokens + Minted(r));
      (match Rotating(cfg, w, token, changes, faults)
       case None => w'
       case Some((current, carried)) =>
         var b1 := ReadSession(cfg, w.backend, token, w.now, faults).1;
         var parent := current.id;
         if !Supersede(cfg, b1, parent, newId, w.now, faults).0 then w'
         else w'.(
           born := w.born[newId := Birth(current.subject, carried, current.createdAt, Some(parent),
                                         if parent in w.born then w.born[parent].depth + 1 else 1, w.now)],
           marks := if Read(b1, parent).Some? then MarkedAway(cfg, w, parent) else w.marks),
       IssueDone(r))
    case DoDestroy(token, faults) =>
      var (r, b) := DestroySession(w.backend, token, w.now, faults);
      (w.(backend := b), DestroyDone(r))
    case DoDestroyAll(subject, faults) =>
      var (n, b) := DestroyAll(w.backend, subject, faults);
      (w.(backend := b), DestroyAllDone(n))
  }

  ghost predicate Admissible(cfg: Config, w: World, steps: seq<Step>)
    decreases steps
  {
    steps != [] ==> Enabled(w, steps[0]) && Admissible(cfg, Step1(cfg, w, steps[0]).0, steps[1..])
  }

  ghost function Run(cfg: Config, w: World, steps: seq<Step>): World
    decreases steps
  {
    if steps == [] then w else Run(cfg, Step1(cfg, w, steps[0]).0, steps[1..])
  }

  /** A fresh deployment: an empty backend whose records live at least as long as a session may. */
  ghost predicate Initial(cfg: Config, w: World) {
    && ValidConfig(cfg)
    && w.tokens == {} && w.born == map[] && w.marks == map[]
    && (w.backend == NoStore
        || w.backend == Reference(map[])
        || (w.backend.Indexed? && w.backend.sessions == map[] && w.backend.subjects == map[]
            && cfg.absoluteTtlMs <= w.backend.ttlMs))
    && (cfg.strategy.Stateful? ==> w.backend != NoStore)
  }

  // ---------------------------------------------------------------------------------------
  // The invariant

  ghost function ExpiryOf(cfg: Config, w: World, id: Id): int
    requires id in w.born
  {
    w.born[id].root + cfg.absoluteTtlMs
  }

  /** A record or token content agrees with the birth of the id it names. */
  ghost predicate TrueToBirth(cfg: Config, w: World, s: Stored) {
    && s.id in w.born
    && s.subject == w.born[s.id].subject
    && s.claims == w.born[s.id].claims
    && s.createdAt == w.born[s.id].root
    && s.absoluteExpiresAt == ExpiryOf(cfg, w, s.id)
    && w.born[s.id].at <= s.lastSeenAt <= w.now
    && Decode(cfg.shape, s.claims) == Some(s.claims)
  }

  ghost predicate LinkOk(w: World, s: Stored) {
    && (s.supersededAt.Some? <==> s.id in w.marks)
    && (s.supersededBy.Some? <==> s.id in w.marks)
    && (s.id in w.marks && s.supersededAt.Some? && s.supersededBy.Some? ==>
          && s.supersededAt.value == w.marks[s.id].deadline
          && var next := s.supersededBy.value;
             && next in w.born && w.born[next].parent == Some(s.id)
             && (next in w.marks ==> s.supersededAt.value <= w.marks[next].deadline))
  }

  ghost predicate RecordsOk(cfg: Config, w: World) {
    forall id :: Read(w.backend, id).Some? ==>
      var s := Read(w.backend, id).value;
      s.id == id && TrueToBirth(cfg, w, s) && LinkOk(w, s)
  }

  ghost predicate BirthOk(cfg: Config, w: World, id: Id)
    requires id in w.born
  {
    var birth := w.born[id];
    && id != ""
    && birth.root <= birth.at <= w.now
    && (birth.parent.None? ==> birth.depth == 0 && birth.at == birth.root)
    && (birth.parent.Some? ==>
          var p := birth.parent.value;
          && p in w.born
          && birth.depth == w.born[p].depth + 1
          && birth.subject == w.born[p].subject
          && birth.root == w.born[p].root
          && (w.backend != NoStore ==> p in w.marks && w.marks[p].first <= birth.at))
  }

  ghost predicate BirthsOk(cfg: Config, w: World) {
    forall id {:trigger BirthOk(cfg, w, id)} :: id in w.born ==> BirthOk(cfg, w, id)
  }

  ghost predicate MarkOk(cfg: Config, w: World, id: Id)
    requires id in w.marks
  {
    var overlap := cfg.rotationOverlapMs;
    var mark := w.marks[id];
    && id in w.born
    && w.born[id].at <= mark.first
    && mark.first + overlap <= mark.deadline <= w.now + overlap
    && (w.born[id].parent.None? ==> mark.deadline == mark.first + overlap)
    && (w.born[id].parent.Some? ==>
          var p := w.born[id].parent.value;
          p in w.marks && mark.deadline <= Max(mark.first, w.marks[p].deadline) + overlap)
  }

  ghost predicate MarksOk(cfg: Config, w: World) {
    && (w.backend == NoStore ==> w.marks == map[])
    && forall id {:trigger MarkOk(cfg, w, id)} :: id in w.marks ==> MarkOk(cfg, w, id)
  }

  ghost predicate TokenOk(cfg: Config, w: World, p: Payload) {
    && p.sid.Some? && p.sid.value in w.born
    && p.aex == Some(ExpiryOf(cfg, w, p.sid.value))
    && (cfg.strategy.Stateless? ==>
          && p.claims.Some?
          && StoredFromPayload(p.sid.value, p).Some?
          && TrueToBirth(cfg, w, StoredFromPayload(p.sid.value, p).value))
  }

  ghost predicate TokensOk(cfg: Config, w: World) {
    forall p {:trigger TokenOk(cfg, w, p)} :: p in w.tokens ==> TokenOk(cfg, w, p)
  }

  /** An index entry that outlives the session `s` and lists it. */
  ghost predicate Listed(b: Backend, s: Stored)
    requires b.Indexed?
  {
    && s.subject in b.subjects
    && s.id in b.subjects[s.subject].value
    && b.subjects[s.subject].expiresAt.Some?
    && s.absoluteExpiresAt <= b.subjects[s.subject].expiresAt.value
  }

  ghost predicate Names(b: Backend, subject: Subject, id: Id)
    requires b.Indexed?
  {
    subject in b.subjects && id in b.subjects[subject].value
  }

  /** The index lists ids under their own subject only. */
  ghost predicate IndexOwned(w: World)
    requires w.backend.Indexed?
  {
    forall subject, id {:trigger Names(w.backend, subject, id)} ::
      Names(w.backend, subject, id) ==> id in w.born && w.born[id].subject == subject
  }

  ghost predicate TablesOk(cfg: Config, w: World) {
    w.backend.Indexed? ==>
      && cfg.absoluteTtlMs <= w.backend.ttlMs
      && IndexOwned(w)
      && (forall id :: id in w.backend.sessions ==>
           var e := w.backend.sessions[id];
           && e.expiresAt.Some? && e.value.absoluteExpiresAt <= e.expiresAt.value
           && (w.now < e.value.absoluteExpiresAt ==> Listed(w.backend, e.value)))
  }

  ghost predicate Inv(cfg: Config, w: World) {
    && ValidConfig(cfg)
    && (cfg.strategy.Stateful? ==> w.backend != NoStore)
    && RecordsOk(cfg, w)
    && BirthsOk(cfg, w)
    && MarksOk(cfg, w)
    && TokensOk(cfg, w)
    && TablesOk(cfg, w)
  }
}
