/**
 * The session engine: issuing, reading, rotating and destroying sessions, for both
 * strategies and any backend. The functions give each call as one transition of the
 * backend; the class performs the same calls on the storage-backed store.
 *
 * Tokens are what an ideal signing codec leaves of them: an `Unverifiable` string, or the
 * payload that was signed. The clock reading, the fresh id and the store calls that
 * reject (`faults`) are parameters of each call.
 */
module SessionEngine {
  import opened Wrappers
  import opened Claims
  import opened SessionStore

  datatype Strategy = Stateless | Stateful

  datatype Config = Config(
    strategy: Strategy,
    shape: ClaimsShape,
    idleTtlMs: int,
    absoluteTtlMs: int,
    rotationOverlapMs: int,
    renewAfterMs: int)

  /** What the configuration and the engine's constructor accept. */
  predicate ValidConfig(cfg: Config) {
    0 < cfg.idleTtlMs <= cfg.absoluteTtlMs && 0 <= cfg.rotationOverlapMs
  }

  datatype Payload = Payload(
    sid: Option<string>,
    sub: Option<string>,
    iat: Option<int>,
    lsa: Option<int>,
    aex: Option<int>,
    claims: Option<ClaimMap>)

  datatype Presented = Absent | Unverifiable | Signed(payload: Payload)

  datatype Session = Session(
    id: Id,
    subject: Subject,
    claims: ClaimMap,
    createdAt: int,
    lastSeenAt: int,
    absoluteExpiresAt: int)

  datatype TokenKind = SessionToken | ClaimsToken

  datatype AuthError =
    | SessionNotFound
    | TokenSignatureMismatch
    | InvalidToken(kind: TokenKind)
    | SessionExpired
    | SessionRevoked
    | StoreError

  datatype ReadResult = ReadOk(session: Session, renewed: Option<Payload>) | ReadFailed(error: AuthError)
  datatype IssueResult = Issued(token: Payload, session: Session) | IssueFailed(error: AuthError)

  /** The store calls an engine call can make, each of which may reject without effect. */
  datatype StoreCall =
    | ReadTarget | ReadSuccessor | WriteTouched
    | ReadPredecessor | WritePredecessor | WriteNew
    | DestroyTarget | DestroySubject

  type Faults = set<StoreCall>

  // ---------------------------------------------------------------------------------------
  // Tokens and records

  function Encode(cfg: Config, s: Stored): Payload {
    match cfg.strategy
    case Stateful => Payload(Some(s.id), None, None, None, Some(s.absoluteExpiresAt), None)
    case Stateless =>
      Payload(Some(s.id), Some(s.subject), Some(s.createdAt), Some(s.lastSeenAt),
              Some(s.absoluteExpiresAt), Some(s.claims))
  }

  function ToSession(s: Stored, claims: ClaimMap): Session {
    Session(s.id, s.subject, claims, s.createdAt, s.lastSeenAt, s.absoluteExpiresAt)
  }

  function StoredFromPayload(id: Id, p: Payload): Option<Stored> {
    if p.sub.None? || p.iat.None? || p.lsa.None? || p.aex.None? then None
    else Some(Stored(id, p.sub.value, p.claims.GetOr(map[]), p.iat.value, p.lsa.value, p.aex.value, None, None))
  }

  // ---------------------------------------------------------------------------------------
  // Reading

  datatype Resolved = Unavailable | Found(record: Option<Stored>)

  function ReadRecord(b: Backend, id: Id, rejects: bool): Resolved {
    if b.NoStore? then Found(None)
    else if rejects then Unavailable
    else Found(Read(b, id))
  }

  /** The record behind a token: the store decides liveness whenever there is one. */
  function ResolveStored(cfg: Config, b: Backend, id: Id, p: Payload, faults: Faults): Resolved {
    if cfg.strategy.Stateful? || !b.NoStore? then ReadRecord(b, id, ReadTarget in faults)
    else Found(StoredFromPayload(id, p))
  }

  datatype Located = Lost(error: AuthError) | Landed(stored: Stored, renewed: Option<Payload>)

  /** Follows a superseded record to its successor, one hop, while its overlap window is open. */
  function Follow(cfg: Config, b: Backend, first: Stored, now: int, faults: Faults): Located {
    if first.supersededAt.None? then Landed(first, None)
    else if now > first.supersededAt.value || first.supersededBy.None? then Lost(SessionRevoked)
    else
      match ReadRecord(b, first.supersededBy.value, ReadSuccessor in faults)
      case Unavailable => Lost(StoreError)
      case Found(None) => Lost(SessionRevoked)
      case Found(Some(successor)) => Landed(successor, Some(Encode(cfg, successor)))
  }

  function Locate(cfg: Config, b: Backend, token: Presented, now: int, faults: Faults): Located {
    match token
    case Absent => Lost(SessionNotFound)
    case Unverifiable => Lost(TokenSignatureMismatch)
    case Signed(p) =>
      if p.sid.None? || p.sid.value == "" then Lost(InvalidToken(SessionToken))
      else if p.aex.Some? && now >= p.aex.value then Lost(SessionExpired)
      else
        match ResolveStored(cfg, b, p.sid.value, p, faults)
        case Unavailable => Lost(StoreError)
        case Found(None) => Lost(SessionNotFound)
        case Found(Some(first)) => Follow(cfg, b, first, now, faults)
  }

  /** Why a record that was found still does not carry a session, if so. */
  function Rejection(cfg: Config, s: Stored, now: int): Option<AuthError> {
    if now >= s.absoluteExpiresAt then Some(SessionExpired)
    else if now - s.lastSeenAt > cfg.idleTtlMs then Some(SessionExpired)
    else if Decode(cfg.shape, s.claims).None? then Some(InvalidToken(ClaimsToken))
    else None
  }

  function Persist(b: Backend, s: Stored, now: int, rejects: bool): (bool, Backend) {
    if b.NoStore? then (true, b)
    else if rejects then (false, b)
    else (true, Write(b, s, now))
  }

  /** Slides the idle window of a valid session; a store failure here is not reported. */
  function Slide(cfg: Config, b: Backend, s: Stored, renewed: Option<Payload>, now: int, faults: Faults)
    : (Option<Payload>, Backend)
  {
    var touched := s.(lastSeenAt := now);
    var due := now - s.lastSeenAt >= cfg.renewAfterMs;
    if !due || (cfg.strategy.Stateless? && renewed.Some?) then (renewed, b)
    else
      (if cfg.strategy.Stateful? then renewed else Some(Encode(cfg, touched)),
       Persist(b, touched, now, WriteTouched in faults).1)
  }

  function ReadSession(cfg: Config, b: Backend, token: Presented, now: int, faults: Faults): (ReadResult, Backend) {
    match Locate(cfg, b, token, now, faults)
    case Lost(e) => (ReadFailed(e), b)
    case Landed(s, renewed) =>
      match Rejection(cfg, s, now)
      case Some(e) => (ReadFailed(e), b)
      case None =>
        var slid := Slide(cfg, b, s, renewed, now, faults);
        (ReadOk(ToSession(s.(lastSeenAt := now), Decode(cfg.shape, s.claims).value), slid.0), slid.1)
  }

  // ---------------------------------------------------------------------------------------
  // Issuing, rotating, destroying

  function IssueFrom(cfg: Config, b: Backend, s: Stored, claims: ClaimMap, now: int, faults: Faults)
    : (IssueResult, Backend)
  {
    var written := Persist(b, s, now, WriteNew in faults);
    (if written.0 then Issued(Encode(cfg, s), ToSession(s, claims)) else IssueFailed(StoreError), written.1)
  }

  function Issue(cfg: Config, b: Backend, subject: Subject, claims: ClaimMap, newId: Id, now: int, faults: Faults)
    : (IssueResult, Backend)
  {
    match Decode(cfg.shape, claims)
    case None => (IssueFailed(InvalidToken(ClaimsToken)), b)
    case Some(decoded) =>
      var s := Stored(newId, subject, decoded, now, now, now + cfg.absoluteTtlMs, None, None);
      IssueFrom(cfg, b, s, decoded, now, faults)
  }

  /** Marks a rotated-away record with its successor and the end of its overlap window. */
  function Supersede(cfg: Config, b: Backend, id: Id, successor: Id, now: int, faults: Faults): (bool, Backend) {
    match ReadRecord(b, id, ReadPredecessor in faults)
    case Unavailable => (false, b)
    case Found(None) => (true, b)
    case Found(Some(predecessor)) =>
      Persist(b,
              predecessor.(supersededAt := Some(now + cfg.rotationOverlapMs), supersededBy := Some(successor)),
              now, WritePredecessor in faults)
  }

  function SuccessorOf(current: Session, claims: ClaimMap, newId: Id, now: int): Stored {
    Stored(newId, current.subject, claims, current.createdAt, now, current.absoluteExpiresAt, None, None)
  }

  function Rotate(cfg: Config, b: Backend, token: Presented, changes: Option<ClaimMap>, newId: Id, now: int,
                  faults: Faults): (IssueResult, Backend)
  {
    match ReadSession(cfg, b, token, now, faults)
    case (ReadFailed(e), b1) => (IssueFailed(e), b1)
    case (ReadOk(current, _), b1) =>
      match Decode(cfg.shape, changes.GetOr(current.claims))
      case None => (IssueFailed(InvalidToken(ClaimsToken)), b1)
      case Some(claims) =>
        var marked := Supersede(cfg, b1, current.id, newId, now, faults);
        if !marked.0 then (IssueFailed(StoreError), marked.1)
        else IssueFrom(cfg, marked.1, SuccessorOf(current, claims, newId, now), claims, now, faults)
  }

  function DestroySession(b: Backend, token: Presented, now: int, faults: Faults): (bool, Backend) {
    if b.NoStore? || !token.Signed? || token.payload.sid.None? || token.payload.sid.value == "" then (false, b)
    else if DestroyTarget in faults then (false, b)
    else (true, Destroy(b, token.payload.sid.value, now))
  }

  function DestroyAll(b: Backend, subject: Subject, faults: Faults): (nat, Backend) {
    if b.NoStore? || DestroySubject in faults then (0, b)
    else var removed := DestroyForSubject(b, subject); (removed.1, removed.0)
  }

  // ---------------------------------------------------------------------------------------
  // The engine over the storage-backed store

  class Engine {
    const cfg: Config
    const store: StorageSessionStore?

    ghost predicate Valid() {
      ValidConfig(cfg) && (cfg.strategy.Stateful? ==> store != null) && (store != null ==> store.Valid())
    }

    ghost function Footprint(): set<object> {
      if store == null then {} else {store.sessions, store.subjects}
    }

    ghost function View(now: int): Backend
      reads Footprint()
    {
      if store == null then NoStore else store.View(now)
    }

    constructor (cfg: Config, store: StorageSessionStore?)
      requires ValidConfig(cfg) && (cfg.strategy.Stateful? ==> store != null) && (store != null ==> store.Valid())
      ensures Valid() && this.cfg == cfg && this.store == store
    {
      this.cfg := cfg;
      this.store := store;
    }

    /** Between calls the engine's backend only expires. */
    lemma ViewExpires(t0: int, t1: int)
      requires Valid() && t0 <= t1
      ensures View(t1) == Expire(View(t0), t1)
    {
      if store != null {
        store.ViewExpires(t0, t1);
      }
    }

    method Fetch(id: Id, now: int, rejects: bool) returns (r: Resolved)
      requires Valid()
      modifies Footprint()
      ensures r == ReadRecord(old(View(now)), id, rejects)
      ensures View(now) == old(View(now))
    {
      if store == null {
        return Found(None);
      }
      if rejects {
        return Unavailable;
      }
      var record := store.ReadRecord(id, now);
      return Found(record);
    }

    method Save(s: Stored, now: int, rejects: bool) returns (ok: bool)
      requires Valid()
      modifies Footprint()
      ensures (ok, View(now)) == Persist(old(View(now)), s, now, rejects)
    {
      if store == null {
        return true;
      }
      if rejects {
        return false;
      }
      store.WriteRecord(s, now);
      return true;
    }

    method Finish(s: Stored, claims: ClaimMap, now: int, faults: Faults) returns (r: IssueResult)
      requires Valid()
      modifies Footprint()
      ensures (r, View(now)) == IssueFrom(cfg, old(View(now)), s, claims, now, faults)
    {
      var ok := Save(s, now, WriteNew in faults);
      r := if ok then Issued(Encode(cfg, s), ToSession(s, claims)) else IssueFailed(StoreError);
    }

    method IssueSession(subject: Subject, claims: ClaimMap, newId: Id, now: int, faults: Faults)
      returns (r: IssueResult)
      requires Valid()
      modifies Footprint()
      ensures (r, View(now)) == Issue(cfg, old(View(now)), subject, claims, newId, now, faults)
    {
      var decoded := Decode(cfg.shape, claims);
      if decoded.None? {
        return IssueFailed(InvalidToken(ClaimsToken));
      }
      var s := Stored(newId, subject, decoded.value, now, now, now + cfg.absoluteTtlMs, None, None);
      r := Finish(s, decoded.value, now, faults);
    }

    method ReadToken(token: Presented, now: int, faults: Faults) returns (r: ReadResult)
      requires Valid()
      modifies Footprint()
      ensures (r, View(now)) == ReadSession(cfg, old(View(now)), token, now, faults)
    {
      if token.Absent? {
        return ReadFailed(SessionNotFound);
      }
      if token.Unverifiable? {
        return ReadFailed(TokenSignatureMismatch);
      }
      var p := token.payload;
      if p.sid.None? || p.sid.value == "" {
        return ReadFailed(InvalidToken(SessionToken));
      }
      if p.aex.Some? && now >= p.aex.value {
        return ReadFailed(SessionExpired);
      }

      var resolved: Resolved;
      if cfg.strategy.Stateful? || store != null {
        resolved := Fetch(p.sid.value, now, ReadTarget in faults);
      } else {
        resolved := Found(StoredFromPayload(p.sid.value, p));
      }
      if resolved.Unavailable? {
        return ReadFailed(StoreError);
      }
      if resolved.record.None? {
        return ReadFailed(SessionNotFound);
      }
      var stored := resolved.record.value;
      var renewed: Option<Payload> := None;

      if stored.supersededAt.Some? {
        if now > stored.supersededAt.value || stored.supersededBy.None? {
          return ReadFailed(SessionRevoked);
        }
        var successor := Fetch(stored.supersededBy.value, now, ReadSuccessor in faults);
        if successor.Unavailable? {
          return ReadFailed(StoreError);
        }
        if successor.record.None? {
          return ReadFailed(SessionRevoked);
        }
        stored := successor.record.value;
        renewed := Some(Encode(cfg, stored));
      }

      if now >= stored.absoluteExpiresAt || now - stored.lastSeenAt > cfg.idleTtlMs {
        return ReadFailed(SessionExpired);
      }
      var decoded := Decode(cfg.shape, stored.claims);
      if decoded.None? {
        return ReadFailed(InvalidToken(ClaimsToken));
      }

      var touched := stored.(lastSeenAt := now);
      var shouldRenew := now - stored.lastSeenAt >= cfg.renewAfterMs;
      if cfg.strategy.Stateful? {
        if shouldRenew {
          var _ := Save(touched, now, WriteTouched in faults);
        }
      } else if shouldRenew && renewed.None? {
        renewed := Some(Encode(cfg, touched));
        var _ := Save(touched, now, WriteTouched in faults);
      }
      return ReadOk(ToSession(touched, decoded.value), renewed);
    }

    method RotateToken(token: Presented, changes: Option<ClaimMap>, newId: Id, now: int, faults: Faults)
      returns (r: IssueResult)
      requires Valid()
      modifies Footprint()
      ensures (r, View(now)) == Rotate(cfg, old(View(now)), token, changes, newId, now, faults)
    {
      var current := ReadToken(token, now, faults);
      if current.ReadFailed? {
        return IssueFailed(current.error);
      }
      var decoded := Decode(cfg.shape, changes.GetOr(current.session.claims));
      if decoded.None? {
        return IssueFailed(InvalidToken(ClaimsToken));
      }
      var successor := SuccessorOf(current.session, decoded.value, newId, now);
      if store != null {
        var predecessor := Fetch(current.session.id, now, ReadPredecessor in faults);
        if predecessor.Unavailable? {
          return IssueFailed(StoreError);
        }
        if predecessor.record.Some? {
          var marked := Save(
            predecessor.record.value.(
              supersededAt := Some(now + cfg.rotationOverlapMs),
              supersededBy := Some(successor.id)),
            now, WritePredecessor in faults);
          if !marked {
            return IssueFailed(StoreError);
          }
        }
      }
      r := Finish(successor, decoded.value, now, faults);
    }

    method DestroyToken(token: Presented, now: int, faults: Faults) returns (revoked: bool)
      requires Valid()
      modifies Footprint()
      ensures (revoked, View(now)) == DestroySession(old(View(now)), token, now, faults)
    {
      if store == null || !token.Signed? || token.payload.sid.None? || token.payload.sid.value == "" {
        return false;
      }
      if DestroyTarget in faults {
        return false;
      }
      store.DestroyRecord(token.payload.sid.value, now);
      return true;
    }

    method DestroySubjectSessions(subject: Subject, now: int, faults: Faults) returns (count: nat)
      requires Valid()
      modifies Footprint()
      ensures (count, View(now)) == DestroyAll(old(View(now)), subject, faults)
    {
      if store == null || DestroySubject in faults {
        return 0;
      }
      count := store.DestroyAllFor(subject, now);
    }
  }
}
