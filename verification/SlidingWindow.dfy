/**
 * Sliding the idle window. Reads write a session back only once `renewAfterMs` has passed
 * since the last write, so how often a session has to be read to stay alive depends on both
 * settings.
 */
module SlidingWindow {
  import opened Wrappers
  import opened SessionStore
  import opened SessionEngine
  import opened SessionRuns
  import opened SessionInvariants

  /** How far the stored instant of last use can lag behind the last read. */
  function Slack(cfg: Config): nat {
    if cfg.renewAfterMs <= 0 then 0 else cfg.renewAfterMs - 1
  }

  /** Waiting, then reading. */
  ghost function ReadAfter(cfg: Config, w: World, p: Payload, gap: nat): (World, Result) {
    Step1(cfg, Step1(cfg, w, Tick(gap)).0, DoRead(Signed(p), {}))
  }

  /** The token a client holds after a read: the renewed one, if it was given one. */
  function Latest(p: Payload, r: Result): Payload {
    if r.ReadDone? && r.read.ReadOk? && r.read.renewed.Some? then r.read.renewed.value else p
  }

  /** Every read succeeds, each after its gap. */
  ghost predicate AllSucceed(cfg: Config, w: World, p: Payload, gaps: seq<nat>)
    decreases |gaps|
  {
    gaps == [] ||
    (var (w', r) := ReadAfter(cfg, w, p, gaps[0]);
     r.ReadDone? && r.read.ReadOk? && AllSucceed(cfg, w', Latest(p, r), gaps[1..]))
  }

  function Total(gaps: seq<nat>): nat {
    if gaps == [] then 0 else gaps[0] + Total(gaps[1..])
  }

  ghost predicate Within(gaps: seq<nat>, most: nat) {
    forall i :: 0 <= i < |gaps| ==> gaps[i] <= most
  }

  /** The record a read of `p` goes by: the store's, or without a store the token's own content. */
  function RecordOf(b: Backend, p: Payload): Option<Stored> {
    if p.sid.None? then None else if b.NoStore? then StoredFromPayload(p.sid.value, p) else Read(b, p.sid.value)
  }

  /** The session of token `p` has not been rotated away, and its instant of last use lies `lag` back. */
  ghost predicate InUse(cfg: Config, w: World, p: Payload, lag: nat) {
    && Inv(cfg, w) && p in w.tokens
    && p.sid.Some? && p.sid.value in w.born && p.sid.value !in w.marks
    && RecordOf(w.backend, p).Some?
    && RecordOf(w.backend, p).value.lastSeenAt == w.now - lag
  }

  /** One read: it succeeds exactly while the idle window is open, and moves the lag. */
  lemma ReadMovesLag(cfg: Config, w: World, p: Payload, lag: nat, gap: nat)
    requires InUse(cfg, w, p, lag) && w.now + gap < ExpiryOf(cfg, w, p.sid.value)
    ensures var (w', r) := ReadAfter(cfg, w, p, gap);
            && r.ReadDone? && (r.read.ReadOk? <==> lag + gap <= cfg.idleTtlMs)
            && (lag + gap <= cfg.idleTtlMs ==>
                  && InUse(cfg, w', Latest(p, r), if lag + gap >= cfg.renewAfterMs then 0 else lag + gap)
                  && w'.now == w.now + gap && Latest(p, r).sid == p.sid
                  && ExpiryOf(cfg, w', p.sid.value) == ExpiryOf(cfg, w, p.sid.value))
  {
    var id := p.sid.value;
    var t := Step1(cfg, w, Tick(gap)).0;
    StepKeepsInv(cfg, w, Tick(gap));
    assert TokenOk(cfg, w, p) && TokenOk(cfg, t, p) && BirthOk(cfg, t, id);
    assert TrueToBirth(cfg, w, RecordOf(w.backend, p).value);
    assert RecordOf(t.backend, p) == RecordOf(w.backend, p);
    var s := RecordOf(t.backend, p).value;
    assert w.backend != NoStore ==> LinkOk(t, s);
    assert Locate(cfg, t.backend, Signed(p), t.now, {}) == Landed(s, None);
    StepKeepsInv(cfg, t, DoRead(Signed(p), {}));
    if w.backend != NoStore {
      ReadAfterWrite(t.backend, s.(lastSeenAt := t.now), t.now);
    }
  }

  /**
   * What a read writes back: the session it returned, and only its instant of last use, when
   * that is due and the store takes it; but in the stateless strategy not when the token was
   * one of a session rotated away. Nothing else in the store changes.
   */
  lemma {:induction false} ReadSlidesExactly(cfg: Config, w: World, p: Payload, faults: Faults)
    requires Inv(cfg, w) && p in w.tokens && w.backend != NoStore
    ensures var (read, b) := ReadSession(cfg, w.backend, Signed(p), w.now, faults);
            && (read.ReadFailed? ==> b == w.backend)
            && (read.ReadOk? ==>
                  var id := read.session.id;
                  && Read(w.backend, id).Some?
                  && var s := Read(w.backend, id).value;
                     var slides := && w.now - s.lastSeenAt >= cfg.renewAfterMs && WriteTouched !in faults
                                   && (cfg.strategy.Stateful? || p.sid == Some(id));
                     && Read(b, id) == Some(if slides then s.(lastSeenAt := w.now) else s)
                     && forall other :: other != id ==> Read(b, other) == Read(w.backend, other))
  {
    if ReadSession(cfg, w.backend, Signed(p), w.now, faults).0.ReadOk? {
      LocateLands(cfg, w, Signed(p), faults);
      var s := Locate(cfg, w.backend, Signed(p), w.now, faults).stored;
      assert BirthOk(cfg, w, s.id);
      ReadAfterWrite(w.backend, s.(lastSeenAt := w.now), w.now);
    }
  }

  /** Reads close enough together keep a session alive to the end of its absolute lifetime. */
  lemma {:induction false} RegularReadsKeepAlive(cfg: Config, w: World, p: Payload, lag: nat, gaps: seq<nat>, most: nat)
    requires InUse(cfg, w, p, lag) && lag <= Slack(cfg) && most + Slack(cfg) <= cfg.idleTtlMs
    requires Within(gaps, most) && w.now + Total(gaps) < ExpiryOf(cfg, w, p.sid.value)
    ensures AllSucceed(cfg, w, p, gaps)
    decreases |gaps|
  {
    hide ReadAfter, InUse, ExpiryOf, Inv;
    if gaps != [] {
      ReadMovesLag(cfg, w, p, lag, gaps[0]);
      var (w', r) := ReadAfter(cfg, w, p, gaps[0]);
      RegularReadsKeepAlive(cfg, w', Latest(p, r), if lag + gaps[0] >= cfg.renewAfterMs then 0
                            else lag + gaps[0], gaps[1..], most);
    }
  }

  /** `n` reads a millisecond apart, none of which is written back, and then one after `last`. */
  function Creeping(n: nat, last: nat): seq<nat> {
    if n == 0 then [last] else [1] + Creeping(n - 1, last)
  }

  lemma {:induction false} CreepingTotal(n: nat, last: nat, most: nat)
    requires 1 <= most && last <= most
    ensures Total(Creeping(n, last)) == n + last && Within(Creeping(n, last), most)
    decreases n
  {
    if n > 0 {
      CreepingTotal(n - 1, last, most);
      assert Creeping(n, last)[1..] == Creeping(n - 1, last);
    }
  }

  lemma {:induction false} CreepingFails(cfg: Config, w: World, p: Payload, lag: nat, n: nat, last: nat)
    requires InUse(cfg, w, p, lag) && lag + n <= Slack(cfg) && lag + n <= cfg.idleTtlMs < lag + n + last
    requires w.now + n + last < ExpiryOf(cfg, w, p.sid.value)
    ensures !AllSucceed(cfg, w, p, Creeping(n, last))
    decreases n
  {
    hide ReadAfter, InUse, ExpiryOf, Inv;
    var gaps := Creeping(n, last);
    ReadMovesLag(cfg, w, p, lag, gaps[0]);
    var (w', r) := ReadAfter(cfg, w, p, gaps[0]);
    if n > 0 {
      CreepingFails(cfg, w', Latest(p, r), lag + 1, n - 1, last);
      assert gaps[1..] == Creeping(n - 1, last);
    }
  }

  /**
   * What it takes to keep a session alive: reads at most `most` apart all succeed, up to the
   * absolute expiry, if and only if `most` leaves room in the idle window for the lag. This
   * holds for both strategies, with a store or without one, as long as the client goes on
   * with the tokens it is given.
   */
  lemma {:induction false} SafeGapExactly(cfg: Config, w: World, p: Payload, most: nat)
    requires InUse(cfg, w, p, 0) && 1 <= most
    requires w.now + cfg.idleTtlMs + 1 < ExpiryOf(cfg, w, p.sid.value)
    ensures (forall gaps :: Within(gaps, most) && w.now + Total(gaps) < ExpiryOf(cfg, w, p.sid.value) ==>
               AllSucceed(cfg, w, p, gaps))
            <==> most + Slack(cfg) <= cfg.idleTtlMs
  {
    if most + Slack(cfg) <= cfg.idleTtlMs {
      forall gaps | Within(gaps, most) && w.now + Total(gaps) < ExpiryOf(cfg, w, p.sid.value)
        ensures AllSucceed(cfg, w, p, gaps)
      {
        RegularReadsKeepAlive(cfg, w, p, 0, gaps, most);
      }
    } else {
      var n := Min(Slack(cfg), cfg.idleTtlMs);
      var last := cfg.idleTtlMs - n + 1;
      CreepingTotal(n, last, most);
      CreepingFails(cfg, w, p, 0, n, last);
    }
  }
}
