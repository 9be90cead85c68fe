/** The reference store for password-reset capabilities: two maps that have to stay each other's inverse. */
module ResetStore {
  import opened Wrappers

  datatype ResetRecord = ResetRecord(digest: string, subject: string, expiresAt: int)

  datatype Tables = Tables(byDigest: map<string, ResetRecord>, digestBySubject: map<string, string>)

  function Remove(t: Tables, r: ResetRecord): Tables {
    Tables(t.byDigest - {r.digest},
           if r.subject in t.digestBySubject && t.digestBySubject[r.subject] == r.digest
           then t.digestBySubject - {r.subject} else t.digestBySubject)
  }

  function FindLive(t: Tables, digest: string, now: int): (Option<ResetRecord>, Tables) {
    if digest !in t.byDigest then (None, t)
    else if t.byDigest[digest].expiresAt <= now then (None, Remove(t, t.byDigest[digest]))
    else (Some(t.byDigest[digest]), t)
  }

  function Revoke(t: Tables, subject: string): Tables {
    if subject in t.digestBySubject && t.digestBySubject[subject] in t.byDigest
    then Remove(t, t.byDigest[t.digestBySubject[subject]]) else t
  }

  function Replace(t: Tables, r: ResetRecord): Tables {
    var cleared := Revoke(t, r.subject);
    Tables(cleared.byDigest[r.digest := r], cleared.digestBySubject[r.subject := r.digest])
  }

  function Consume(t: Tables, digest: string, now: int): (Option<ResetRecord>, Tables) {
    match FindLive(t, digest, now)
    case (None, t') => (None, t')
    case (Some(r), t') => (Some(r), Remove(t', r))
  }

  /** The maps are mutually inverse. */
  ghost predicate Inverse(t: Tables) {
    && (forall d :: d in t.byDigest ==>
          && t.byDigest[d].digest == d
          && t.byDigest[d].subject in t.digestBySubject
          && t.digestBySubject[t.byDigest[d].subject] == d)
    && (forall s :: s in t.digestBySubject ==>
          t.digestBySubject[s] in t.byDigest && t.byDigest[t.digestBySubject[s]].subject == s)
  }

  lemma RemovalsKeepInverse(t: Tables, digest: string, subject: string, now: int)
    requires Inverse(t)
    ensures Inverse(FindLive(t, digest, now).1)
    ensures Inverse(Consume(t, digest, now).1)
    ensures Inverse(Revoke(t, subject))
    ensures subject !in Revoke(t, subject).digestBySubject
  {
  }

  /** Storing a record keeps the maps inverse exactly when no other subject holds its digest. */
  lemma ReplaceKeepsInverseExactly(t: Tables, r: ResetRecord)
    requires Inverse(t)
    ensures Inverse(Replace(t, r)) <==> (r.digest in t.byDigest ==> t.byDigest[r.digest].subject == r.subject)
  {
    RemovalsKeepInverse(t, r.digest, r.subject, 0);
    var cleared, t' := Revoke(t, r.subject), Replace(t, r);
    if r.digest in t.byDigest && t.byDigest[r.digest].subject != r.subject {
      var other := t.byDigest[r.digest].subject;
      assert t'.digestBySubject[other] == r.digest;
      assert t'.byDigest[r.digest].subject == r.subject;
    }
  }

  class MemoryPasswordResetStore {
    var tables: Tables

    constructor ()
      ensures tables == Tables(map[], map[])
    {
      tables := Tables(map[], map[]);
    }

    method Drop(r: ResetRecord)
      modifies this
      ensures tables == Remove(old(tables), r)
    {
      var bySubject := tables.digestBySubject;
      if r.subject in bySubject && bySubject[r.subject] == r.digest {
        bySubject := bySubject - {r.subject};
      }
      tables := Tables(tables.byDigest - {r.digest}, bySubject);
    }

    method Live(digest: string, now: int) returns (r: Option<ResetRecord>)
      modifies this
      ensures (r, tables) == FindLive(old(tables), digest, now)
    {
      if digest !in tables.byDigest {
        return None;
      }
      var record := tables.byDigest[digest];
      if record.expiresAt <= now {
        Drop(record);
        return None;
      }
      return Some(record);
    }

    method RevokeForSubject(subject: string)
      modifies this
      ensures tables == Revoke(old(tables), subject)
    {
      if subject in tables.digestBySubject {
        var digest := tables.digestBySubject[subject];
        if digest in tables.byDigest {
          Drop(tables.byDigest[digest]);
        }
      }
    }

    method ReplaceRecord(r: ResetRecord)
      modifies this
      ensures tables == Replace(old(tables), r)
    {
      RevokeForSubject(r.subject);
      tables := Tables(tables.byDigest[r.digest := r], tables.digestBySubject[r.subject := r.digest]);
    }

    method ConsumeRecord(digest: string, now: int) returns (r: Option<ResetRecord>)
      modifies this
      ensures (r, tables) == Consume(old(tables), digest, now)
    {
      r := Live(digest, now);
      if r.Some? {
        Drop(r.value);
      }
    }
  }
}
