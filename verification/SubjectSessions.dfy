/** Live sessions by subject, as sign-ins open them and revocations end them. */
module SubjectSessions {
  type SessionId = nat

  type Sessions = map<SessionId, string>

  function Of(sessions: Sessions, subject: string): set<SessionId> {
    set sid | sid in sessions && sessions[sid] == subject
  }

  datatype Move = Opened(sid: SessionId, subject: string) | Ended(subject: string) | Still

  function After(sessions: Sessions, m: Move): Sessions {
    match m
    case Opened(sid, subject) => sessions[sid := subject]
    case Ended(subject) => sessions - Of(sessions, subject)
    case Still => sessions
  }

  function AfterAll(sessions: Sessions, moves: seq<Move>): Sessions
    decreases |moves|
  {
    if moves == [] then sessions else AfterAll(After(sessions, moves[0]), moves[1..])
  }

  /** Ids are not opened while they are live. */
  predicate Proper(sessions: Sessions, moves: seq<Move>)
    decreases |moves|
  {
    moves == [] ||
    ((moves[0].Opened? ==> moves[0].sid !in sessions) && Proper(After(sessions, moves[0]), moves[1..]))
  }

  /** Of some open sessions of the subject, and those opened since, the ones not ended since. */
  function OpenSince(open: set<SessionId>, moves: seq<Move>, subject: string): set<SessionId>
    decreases |moves|
  {
    if moves == [] then open
    else
      var m := moves[0];
      OpenSince(if m.Opened? && m.subject == subject then open + {m.sid}
                else if m.Ended? && m.subject == subject then {}
                else open, moves[1..], subject)
  }

  lemma {:induction false} LiveAre(sessions: Sessions, moves: seq<Move>, subject: string)
    requires Proper(sessions, moves)
    ensures Of(AfterAll(sessions, moves), subject) == OpenSince(Of(sessions, subject), moves, subject)
    decreases |moves|
  {
    if moves != [] {
      var m, next := moves[0], After(sessions, moves[0]);
      assert Of(next, subject) == if m.Opened? && m.subject == subject then Of(sessions, subject) + {m.sid}
                                  else if m.Ended? && m.subject == subject then {}
                                  else Of(sessions, subject);
      LiveAre(next, moves[1..], subject);
    }
  }

  /** Where nobody signs in as the subject, no session of theirs appears. */
  lemma {:induction false} NoneAppears(moves: seq<Move>, subject: string)
    requires forall i :: 0 <= i < |moves| && moves[i].Opened? ==> moves[i].subject != subject
    ensures OpenSince({}, moves, subject) == {}
    decreases |moves|
  {
    if moves != [] {
      NoneAppears(moves[1..], subject);
    }
  }
}
