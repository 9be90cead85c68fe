/**
 * Changing a password while others change it too. Every await of `changePassword` is a point
 * where other changes, resets and sign-ins can move. A change begins here once the current
 * password has been verified against the stored hash and the new one accepted; what ends a
 * change before that alters no session and no hash.
 */
module PasswordChange {
  import opened SubjectSessions

  type Pid = nat

  /** Where a change stands; `seen` is the hash the current password was verified against. */
  datatype Progress =
    | Hashing(subject: string, seen: string)
    | Revoking(subject: string, seen: string, hash: string)
    | Swapping(subject: string, seen: string, hash: string)
    | Changed(subject: string, seen: string, hash: string)
    | Lost(subject: string, seen: string)

  /** `used` lists the hashes that are or were in force, `drawn` all that were ever made. */
  datatype World = World(
    hashes: map<string, string>,
    used: set<string>,
    drawn: set<string>,
    changes: map<Pid, Progress>,
    sessions: Sessions)

  datatype Step =
    | Begin(pid: Pid, subject: string)
    | Hashed(pid: Pid, hash: string)
    | Revoke(pid: Pid)
    | Swap(pid: Pid)
    | Reset(subject: string, hash: string)
    | SignIn(sid: SessionId, subject: string)

  /** Hashes are salted, so none is made twice. A change that something rejects simply steps no further. */
  predicate Enabled(w: World, step: Step) {
    match step
    case Begin(pid, subject) => pid !in w.changes && subject in w.hashes
    case Hashed(pid, hash) => pid in w.changes && w.changes[pid].Hashing? && hash !in w.drawn
    case Revoke(pid) => pid in w.changes && w.changes[pid].Revoking?
    case Swap(pid) => pid in w.changes && w.changes[pid].Swapping?
    case Reset(subject, hash) => subject in w.hashes && hash !in w.drawn
    case SignIn(sid, _) => sid !in w.sessions
  }

  function MoveOf(w: World, step: Step): Move
    requires Enabled(w, step)
  {
    match step
    case SignIn(sid, subject) => Opened(sid, subject)
    case Revoke(pid) => Ended(w.changes[pid].subject)
    case _ => Still
  }

  function Next(w: World, step: Step): World
    requires Enabled(w, step)
  {
    match step
    case Begin(pid, subject) => w.(changes := w.changes[pid := Hashing(subject, w.hashes[subject])])
    case Hashed(pid, hash) =>
      var c := w.changes[pid];
      w.(drawn := w.drawn + {hash}, changes := w.changes[pid := Revoking(c.subject, c.seen, hash)])
    case Revoke(pid) =>
      var c := w.changes[pid];
      w.(sessions := After(w.sessions, MoveOf(w, step)),
         changes := w.changes[pid := Swapping(c.subject, c.seen, c.hash)])
    case Swap(pid) =>
      var c := w.changes[pid];
      if c.subject in w.hashes && w.hashes[c.subject] == c.seen then
        w.(hashes := w.hashes[c.subject := c.hash], used := w.used + {c.hash},
           changes := w.changes[pid := Changed(c.subject, c.seen, c.hash)])
      else w.(changes := w.changes[pid := Lost(c.subject, c.seen)])
    case Reset(subject, hash) =>
      w.(hashes := w.hashes[subject := hash], used := w.used + {hash}, drawn := w.drawn + {hash})
    case SignIn(_, _) => w.(sessions := After(w.sessions, MoveOf(w, step)))
  }

  predicate Admissible(w: World, steps: seq<Step>)
    decreases |steps|
  {
    steps == [] || (Enabled(w, steps[0]) && Admissible(Next(w, steps[0]), steps[1..]))
  }

  function Run(w: World, steps: seq<Step>): World
    requires Admissible(w, steps)
    decreases |steps|
  {
    if steps == [] then w else Run(Next(w, steps[0]), steps[1..])
  }

  /** Some users, each with a hash, and some live sessions. */
  ghost predicate Initial(w: World) {
    w.changes == map[] && w.used == w.hashes.Values && w.drawn == w.used
  }

  // ---------------------------------------------------------------------------------------
  // The invariant

  predicate Pending(p: Progress) {
    p.Revoking? || p.Swapping?
  }

  /**
   * Hashes in force were used; a hash still pending was not, and is of one change only; a
   * hash that a change replaced is not in force, and was replaced by that change alone.
   */
  ghost predicate Inv(w: World) {
    && w.hashes.Values <= w.used <= w.drawn
    && (forall p :: p in w.changes ==> w.changes[p].seen in w.used)
    && (forall p :: p in w.changes && Pending(w.changes[p]) ==>
          w.changes[p].hash in w.drawn && w.changes[p].hash !in w.used)
    && (forall p, q :: p in w.changes && q in w.changes && p != q && Pending(w.changes[p]) && Pending(w.changes[q]) ==>
          w.changes[p].hash != w.changes[q].hash)
    && (forall p :: p in w.changes && w.changes[p].Changed? ==>
          w.changes[p].subject in w.hashes && w.hashes[w.changes[p].subject] != w.changes[p].seen)
    && (forall p, q :: p in w.changes && q in w.changes && p != q && w.changes[p].Changed? && w.changes[q].Changed? ==>
          w.changes[p].subject != w.changes[q].subject || w.changes[p].seen != w.changes[q].seen)
  }

  lemma {:induction false} StepKeepsInv(w: World, step: Step)
    requires Inv(w) && Enabled(w, step)
    ensures Inv(Next(w, step))
  {
    match step
    case Hashed(_, _) => HashedKeepsInv(w, step);
    case Revoke(pid) => AdvanceKeepsInv(w, Next(w, step), pid);
    case Swap(pid) => SwapKeepsInv(w, pid);
    case Begin(_, _) =>
    case Reset(_, _) =>
    case SignIn(_, _) =>
  }

  lemma {:induction false} HashedKeepsInv(w: World, step: Step)
    requires Inv(w) && Enabled(w, step) && step.Hashed?
    ensures Inv(Next(w, step))
  {
  }

  /** A change that has its hash and moves on without touching any in force. */
  lemma {:induction false} AdvanceKeepsInv(w: World, w': World, pid: Pid)
    requires Inv(w) && pid in w.changes && Pending(w.changes[pid]) && pid in w'.changes
    requires w' == w.(changes := w.changes[pid := w'.changes[pid]], sessions := w'.sessions)
    requires w'.changes[pid].seen == w.changes[pid].seen
    requires w'.changes[pid].Lost? || (Pending(w'.changes[pid]) && w'.changes[pid].hash == w.changes[pid].hash)
    ensures Inv(w')
  {
  }

  lemma {:induction false} SwapKeepsInv(w: World, pid: Pid)
    requires Inv(w) && Enabled(w, Swap(pid))
    ensures Inv(Next(w, Swap(pid)))
  {
    var c, w' := w.changes[pid], Next(w, Swap(pid));
    if w'.changes[pid].Lost? {
      AdvanceKeepsInv(w, w', pid);
    } else {
      assert forall q :: q in w.changes && q != pid ==> w'.changes[q] == w.changes[q];
      assert forall q :: q in w'.changes ==> w'.changes[q].seen in w.used;
    }
  }

  lemma {:induction false} RunKeepsInv(w: World, steps: seq<Step>)
    requires Inv(w) && Admissible(w, steps)
    ensures Inv(Run(w, steps))
    decreases |steps|
  {
    if steps != [] {
      StepKeepsInv(w, steps[0]);
      hide Next, Enabled, Inv;
      RunKeepsInv(Next(w, steps[0]), steps[1..]);
    }
  }

  // ---------------------------------------------------------------------------------------
  // What the swap decides

  /** However changes interleave, each version of a subject's password is replaced by at most one of them. */
  lemma {:induction false} OneChangePerVersion(w0: World, steps: seq<Step>, p: Pid, q: Pid)
    requires Initial(w0) && Admissible(w0, steps)
    requires var w := Run(w0, steps);
             && p in w.changes && q in w.changes && w.changes[p].Changed? && w.changes[q].Changed?
             && w.changes[p].subject == w.changes[q].subject && w.changes[p].seen == w.changes[q].seen
    ensures p == q
  {
    RunKeepsInv(w0, steps);
  }

  /** The step puts a new hash in force for the subject. */
  predicate Writes(w: World, step: Step, subject: string)
    requires Enabled(w, step)
  {
    (step.Reset? && step.subject == subject)
    || (step.Swap? && w.changes[step.pid].subject == subject
        && subject in w.hashes && w.hashes[subject] == w.changes[step.pid].seen)
  }

  predicate WrittenIn(w: World, steps: seq<Step>, subject: string)
    requires Admissible(w, steps)
    decreases |steps|
  {
    steps != [] && (Writes(w, steps[0], subject) || WrittenIn(Next(w, steps[0]), steps[1..], subject))
  }

  lemma {:induction false} HashInForce(w: World, steps: seq<Step>, subject: string, seen: string)
    requires Inv(w) && Admissible(w, steps) && subject in w.hashes && seen in w.used
    ensures var w' := Run(w, steps);
            subject in w'.hashes
            && (w'.hashes[subject] == seen <==> w.hashes[subject] == seen && !WrittenIn(w, steps, subject))
    decreases |steps|
  {
    if steps != [] {
      var w1 := Next(w, steps[0]);
      StepKeepsInv(w, steps[0]);
      assert subject in w1.hashes && seen in w1.used;
      assert Writes(w, steps[0], subject) ==> w1.hashes[subject] != seen;
      assert !Writes(w, steps[0], subject) ==> w1.hashes[subject] == w.hashes[subject];
      hide Next, Enabled, Inv, Writes;
      HashInForce(w1, steps[1..], subject, seen);
    }
  }

  /** A change goes on about the subject and from the hash it began with. */
  lemma {:induction false} SubjectKept(w: World, steps: seq<Step>, pid: Pid)
    requires Admissible(w, steps) && pid in w.changes
    ensures var w' := Run(w, steps);
            pid in w'.changes && w'.changes[pid].subject == w.changes[pid].subject
            && w'.changes[pid].seen == w.changes[pid].seen
    decreases |steps|
  {
    if steps != [] {
      var w1 := Next(w, steps[0]);
      assert pid in w1.changes && w1.changes[pid].subject == w.changes[pid].subject
             && w1.changes[pid].seen == w.changes[pid].seen;
      hide Next, Enabled;
      SubjectKept(w1, steps[1..], pid);
    }
  }

  /** A change comes through if and only if nothing else replaced the hash since it was verified against. */
  lemma {:induction false} SwapWinsExactly(w: World, pid: Pid, subject: string, since: seq<Step>)
    requires Inv(w) && Enabled(w, Begin(pid, subject)) && Admissible(Next(w, Begin(pid, subject)), since)
    requires Enabled(Run(Next(w, Begin(pid, subject)), since), Swap(pid))
    ensures var begun := Next(w, Begin(pid, subject));
            Next(Run(begun, since), Swap(pid)).changes[pid].Changed? <==> !WrittenIn(begun, since, subject)
  {
    var begun := Next(w, Begin(pid, subject));
    StepKeepsInv(w, Begin(pid, subject));
    SubjectKept(begun, since, pid);
    HashInForce(begun, since, subject, w.hashes[subject]);
  }

  // ---------------------------------------------------------------------------------------
  // Sessions

  function Moves(w: World, steps: seq<Step>): seq<Move>
    requires Admissible(w, steps)
    decreases |steps|
  {
    if steps == [] then [] else [MoveOf(w, steps[0])] + Moves(Next(w, steps[0]), steps[1..])
  }

  lemma {:induction false} SessionsFollowMoves(w: World, steps: seq<Step>)
    requires Admissible(w, steps)
    ensures Proper(w.sessions, Moves(w, steps))
    ensures Run(w, steps).sessions == AfterAll(w.sessions, Moves(w, steps))
    decreases |steps|
  {
    if steps != [] {
      var w1 := Next(w, steps[0]);
      assert w1.sessions == After(w.sessions, MoveOf(w, steps[0]));
      hide Next;
      SessionsFollowMoves(w1, steps[1..]);
    }
  }

  /**
   * The sessions are revoked before the swap is tried. So whether it is won or lost, what is
   * left of the subject's sessions are exactly those opened in between and not revoked again.
   */
  lemma {:induction false} ChangeLeavesExactly(w: World, pid: Pid, between: seq<Step>)
    requires Enabled(w, Revoke(pid)) && Admissible(Next(w, Revoke(pid)), between)
    requires Enabled(Run(Next(w, Revoke(pid)), between), Swap(pid))
    ensures var revoked := Next(w, Revoke(pid));
            var end := Next(Run(revoked, between), Swap(pid));
            (end.changes[pid].Changed? || end.changes[pid].Lost?)
            && Of(end.sessions, w.changes[pid].subject)
               == OpenSince({}, Moves(revoked, between), w.changes[pid].subject)
  {
    var subject, revoked := w.changes[pid].subject, Next(w, Revoke(pid));
    assert Of(revoked.sessions, subject) == {};
    SessionsFollowMoves(revoked, between);
    LiveAre(revoked.sessions, Moves(revoked, between), subject);
  }

  /** A change that loses has ended every session the subject had, and changed nothing else. */
  lemma {:induction false} LosingRevokesAnyway(w: World, pid: Pid, hash: string)
    requires Inv(w) && Enabled(w, Revoke(pid)) && w.changes[pid].subject in w.hashes && hash !in w.drawn
    ensures var subject := w.changes[pid].subject;
            var w1 := Next(w, Revoke(pid));
            && Enabled(w1, Reset(subject, hash)) && Enabled(Next(w1, Reset(subject, hash)), Swap(pid))
            && var end := Next(Next(w1, Reset(subject, hash)), Swap(pid));
               && end.changes[pid].Lost? && Of(end.sessions, subject) == {} && end.hashes[subject] == hash
  {
  }
}
