/** Stored sessions and the tombstones of revoked ones (src/session-store.js). Storage
    identifiers stand for session identifiers: the keyed hash between them is injective. */
module Sessions {
  import opened Wrappers

  const MINIMUM_REVOCATION_TTL_MS := 60_000

  /** The decrypted payload: the fields that the store reads. */
  datatype StoredSession = StoredSession(
    userId: Option<int>, mfaUserId: Option<int>, webAuthnUserId: Option<int>, flowUserId: Option<int>,
    sessionCreatedAt: Option<int>, authenticatedAt: Option<int>, mfaCreatedAt: Option<int>,
    webAuthnCreatedAt: Option<int>, flowCreatedAt: Option<int>,
    originalMaxAge: Option<int>, maxAge: Option<int>, cookieExpires: Option<int>)

  /** The sess column: decrypting a corrupt payload throws. */
  datatype Payload = Protected(stored: StoredSession) | Plaintext(stored: StoredSession) | Corrupt

  function Decrypt(p: Payload): Option<StoredSession> {
    if p.Corrupt? then None else Some(p.stored)
  }

  datatype Row = Row(sess: Payload, expires: int)

  /** The sessions and revoked_sessions tables. */
  datatype Tables = Tables(sessions: map<string, Row>, revoked: map<string, int>)

  datatype Config = Config(defaultTtlMs: nat, absoluteTtlMs: nat, revocationTtlMs: nat)

  /** What the constructor of the store establishes. */
  predicate ValidConfig(c: Config) {
    c.revocationTtlMs >= c.defaultTtlMs && c.revocationTtlMs >= c.absoluteTtlMs
  }

  // ----- pure helpers -----

  function Positives(xs: seq<Option<int>>): (r: seq<int>)
    ensures forall x :: x in r <==> x > 0 && Some(x) in xs
  {
    if xs == [] then []
    else (if xs[0].Some? && xs[0].value > 0 then [xs[0].value] else []) + Positives(xs[1..])
  }

  function Finite(xs: seq<Option<int>>): (r: seq<int>)
    ensures forall x :: x in r <==> Some(x) in xs
  {
    if xs == [] then [] else (if xs[0].Some? then [xs[0].value] else []) + Finite(xs[1..])
  }

  function Maximum(xs: seq<int>): (m: int)
    requires xs != []
    ensures m in xs && forall x :: x in xs ==> x <= m
  {
    if |xs| == 1 then xs[0]
    else
      var rest := Maximum(xs[1..]);
      assert forall x :: x in xs ==> x == xs[0] || x in xs[1..];
      if xs[0] > rest then xs[0] else rest
  }

  function Minimum(xs: seq<int>): (m: int)
    requires xs != []
    ensures m in xs && forall x :: x in xs ==> m <= x
  {
    if |xs| == 1 then xs[0]
    else
      var rest := Minimum(xs[1..]);
      assert forall x :: x in xs ==> x == xs[0] || x in xs[1..];
      if xs[0] < rest then xs[0] else rest
  }

  /** authenticatedSessionCreatedAt: the earliest time the session claims. */
  function CreatedAt(s: StoredSession): (r: Option<nat>)
    ensures r.Some? ==> Some(r.value as int) in [s.sessionCreatedAt, s.authenticatedAt, s.mfaCreatedAt, s.flowCreatedAt]
  {
    var times := Positives([s.sessionCreatedAt, s.authenticatedAt, s.mfaCreatedAt, s.flowCreatedAt]);
    if times == [] then None else Some(Minimum(times))
  }

  /** revocationExpiry */
  function RevocationExpiry(stored: Option<StoredSession>, expires: Option<int>, ttlMs: nat, now: nat): (r: int)
    ensures r >= now + ttlMs && r >= now + MINIMUM_REVOCATION_TTL_MS
    ensures expires.Some? ==> r >= expires.value
  {
    var cookie := if stored.Some? then [stored.value.originalMaxAge, stored.value.maxAge] else [];
    var duration := Maximum([MINIMUM_REVOCATION_TTL_MS] + Positives([Some(ttlMs)] + cookie));
    assert ttlMs > 0 ==> Some(ttlMs as int) in [Some(ttlMs)] + cookie && ttlMs in Positives([Some(ttlMs)] + cookie);
    Maximum([now + duration, if expires.Some? then expires.value else 0])
  }

  function CalculateExpiry(s: StoredSession, now: nat, c: Config): int {
    if s.cookieExpires.Some? then s.cookieExpires.value
    else now + if s.maxAge.Some? then s.maxAge.value else c.defaultTtlMs
  }

  predicate PastAbsoluteExpiry(s: StoredSession, now: nat, c: Config) {
    c.absoluteTtlMs > 0 && CreatedAt(s).Some? && now - CreatedAt(s).value > c.absoluteTtlMs
  }

  /** A tombstone that has not run out: writes under this id are refused. */
  predicate Tombstoned(t: Tables, sid: string, now: nat) {
    sid in t.revoked && t.revoked[sid] >= now
  }

  // ----- operations -----

  /** revokeStoredSession for a protected identifier: the later expiry wins. */
  function Revoke(t: Tables, sid: string, expiry: int): Tables {
    Tables(t.sessions - {sid},
           t.revoked[sid := if sid in t.revoked && t.revoked[sid] > expiry then t.revoked[sid] else expiry])
  }

  datatype GetResult = GetResult(tables: Tables, found: Option<StoredSession>)

  function Get(t: Tables, sid: string, now: nat): GetResult {
    if Tombstoned(t, sid, now) then GetResult(t.(sessions := t.sessions - {sid}), None)
    else
      var u := t.(revoked := t.revoked - {sid});
      if sid !in u.sessions then GetResult(u, None)
      else if u.sessions[sid].expires < now || u.sessions[sid].sess.Corrupt? then
        GetResult(u.(sessions := u.sessions - {sid}), None)
      else
        var stored := u.sessions[sid].sess.stored;
        GetResult(u.(sessions := u.sessions[sid := Row(Protected(stored), u.sessions[sid].expires)]), Some(stored))
  }

  function Set(t: Tables, sid: string, s: StoredSession, now: nat, c: Config): Tables {
    if PastAbsoluteExpiry(s, now, c) then Revoke(t, sid, RevocationExpiry(Some(s), None, c.revocationTtlMs, now))
    else if Tombstoned(t, sid, now) then t.(sessions := t.sessions - {sid})
    else t.(sessions := t.sessions[sid := Row(Protected(s), CalculateExpiry(s, now, c))])
  }

  function Touch(t: Tables, sid: string, s: StoredSession, now: nat, c: Config): Tables {
    if PastAbsoluteExpiry(s, now, c) then Revoke(t, sid, RevocationExpiry(Some(s), None, c.revocationTtlMs, now))
    else if Tombstoned(t, sid, now) || sid !in t.sessions then t.(sessions := t.sessions - {sid})
    else t.(sessions := t.sessions[sid := t.sessions[sid].(expires := CalculateExpiry(s, now, c))])
  }

  function Destroy(t: Tables, sid: string, now: nat, c: Config): Tables {
    var row := if sid in t.sessions then Some(t.sessions[sid]) else None;
    var stored := if row.Some? then Decrypt(row.value.sess) else None;
    Revoke(t, sid,
           RevocationExpiry(stored, if row.Some? then Some(row.value.expires) else None, c.revocationTtlMs, now))
  }

  /** The timer that drops expired rows and tombstones. */
  function Cleanup(t: Tables, now: nat): Tables {
    Tables(map sid | sid in t.sessions && t.sessions[sid].expires >= now :: t.sessions[sid],
           map sid | sid in t.revoked && t.revoked[sid] >= now :: t.revoked[sid])
  }

  // ----- runs after a revocation -----

  /** Any other change to the tables keeps or extends tombstones and adds no session: prune, purge
      and the revocations of other modules are of this kind. */
  ghost predicate OnlyRevokes(t: Tables, t': Tables) {
    && t'.sessions.Keys <= t.sessions.Keys
    && (forall sid :: sid in t.revoked ==> sid in t'.revoked && t'.revoked[sid] >= t.revoked[sid])
  }

  datatype Step =
    | GetStep(sid: string, now: nat)
    | SetStep(sid: string, s: StoredSession, now: nat)
    | TouchStep(sid: string, s: StoredSession, now: nat)
    | DestroyStep(sid: string, now: nat)
    | CleanupStep(now: nat)
    | RevokingStep(now: nat)

  ghost predicate Follows(t: Tables, step: Step, t': Tables, c: Config) {
    match step
    case GetStep(sid, now) => t' == Get(t, sid, now).tables
    case SetStep(sid, s, now) => t' == Set(t, sid, s, now, c)
    case TouchStep(sid, s, now) => t' == Touch(t, sid, s, now, c)
    case DestroyStep(sid, now) => t' == Destroy(t, sid, now, c)
    case CleanupStep(now) => t' == Cleanup(t, now)
    case RevokingStep(now) => OnlyRevokes(t, t')
  }

  /** Copies written under the id after its revocation were created no later than it. */
  predicate OldCopy(step: Step, sid: string, revokedAt: nat) {
    (step.SetStep? || step.TouchStep?) && step.sid == sid ==>
      CreatedAt(step.s).Some? && CreatedAt(step.s).value <= revokedAt
  }

  /** The steps of a run from the first state on, in the order of the clock. */
  ghost predicate IsRun(states: seq<Tables>, steps: seq<Step>, start: nat, c: Config) {
    && |states| == |steps| + 1
    && (forall i :: 0 <= i < |steps| ==> Follows(states[i], steps[i], states[i + 1], c))
    && (forall i :: 0 <= i < |steps| ==> start <= steps[i].now)
    && (forall i, j :: 0 <= i < j < |steps| ==> steps[i].now <= steps[j].now)
  }

  /** The id has no row, and either a tombstone that outlives the absolute lifetime or that
      lifetime behind it. */
  ghost predicate Dead(t: Tables, sid: string, revokedAt: nat, now: nat, c: Config) {
    && sid !in t.sessions
    && ((sid in t.revoked && t.revoked[sid] >= revokedAt + c.absoluteTtlMs) || now > revokedAt + c.absoluteTtlMs)
  }

  lemma DeadStays(t: Tables, step: Step, t': Tables, sid: string, revokedAt: nat, now: nat, c: Config)
    requires Dead(t, sid, revokedAt, now, c) && Follows(t, step, t', c)
    requires c.absoluteTtlMs > 0 && OldCopy(step, sid, revokedAt) && now <= step.now
    ensures Dead(t', sid, revokedAt, step.now, c)
  {
    hide CreatedAt, RevocationExpiry, CalculateExpiry;
  }

  lemma {:induction false} DeadThroughRun(
    states: seq<Tables>, steps: seq<Step>, sid: string, revokedAt: nat, c: Config, i: nat
  )
    requires c.absoluteTtlMs > 0 && IsRun(states, steps, revokedAt, c) && i < |states|
    requires Dead(states[0], sid, revokedAt, revokedAt, c)
    requires forall k :: 0 <= k < |steps| ==> OldCopy(steps[k], sid, revokedAt)
    ensures Dead(states[i], sid, revokedAt, if i == 0 then revokedAt else steps[i - 1].now, c)
  {
    hide Dead, Follows, OldCopy;
    if i > 0 {
      DeadThroughRun(states, steps, sid, revokedAt, c, i - 1);
      DeadStays(states[i - 1], steps[i - 1], states[i], sid, revokedAt,
                if i == 1 then revokedAt else steps[i - 2].now, c);
    }
  }

  /** A session revoked with a tombstone that lasts the absolute lifetime is never returned again. */
  lemma RevokedNeverReturns(
    t: Tables, sid: string, expiry: int, revokedAt: nat, states: seq<Tables>, steps: seq<Step>, c: Config, i: nat,
    now: nat
  )
    requires c.absoluteTtlMs > 0 && expiry >= revokedAt + c.absoluteTtlMs
    requires IsRun(states, steps, revokedAt, c) && states[0] == Revoke(t, sid, expiry)
    requires forall k :: 0 <= k < |steps| ==> OldCopy(steps[k], sid, revokedAt)
    requires i < |states| && (i > 0 ==> steps[i - 1].now <= now)
    ensures Get(states[i], sid, now).found.None?
  {
    hide Follows, OldCopy;
    DeadThroughRun(states, steps, sid, revokedAt, c, i);
  }

  /** So destroy is final under the store's own configuration. */
  lemma DestroyedNeverReturns(
    t: Tables, sid: string, revokedAt: nat, states: seq<Tables>, steps: seq<Step>, c: Config, i: nat, now: nat
  )
    requires c.absoluteTtlMs > 0 && ValidConfig(c)
    requires IsRun(states, steps, revokedAt, c) && states[0] == Destroy(t, sid, revokedAt, c)
    requires forall k :: 0 <= k < |steps| ==> OldCopy(steps[k], sid, revokedAt)
    requires i < |states| && (i > 0 ==> steps[i - 1].now <= now)
    ensures Get(states[i], sid, now).found.None?
  {
    hide Follows, OldCopy, RevocationExpiry;
    var row := if sid in t.sessions then Some(t.sessions[sid]) else None;
    var stored := if row.Some? then Decrypt(row.value.sess) else None;
    var expires := if row.Some? then Some(row.value.expires) else None;
    RevokedNeverReturns(t, sid, RevocationExpiry(stored, expires, c.revocationTtlMs, revokedAt), revokedAt, states,
                        steps, c, i, now);
  }

  /** A copy of the session, created when the original was revoked and valid for a long time. */
  function Copy(createdAt: nat, expires: int): StoredSession {
    StoredSession(None, None, None, None, Some(createdAt), None, None, None, None, None, None, Some(expires))
  }

  /** The bound is sharp: a tombstone shorter than the absolute lifetime lets a copy come back. */
  lemma ShortTombstoneFails(t: Tables, sid: string, expiry: nat, revokedAt: nat, c: Config)
    requires 0 < revokedAt <= expiry < revokedAt + c.absoluteTtlMs && sid !in t.revoked
    ensures var s, late := Copy(revokedAt, expiry + 2), expiry + 1;
            && OldCopy(SetStep(sid, s, late), sid, revokedAt)
            && Get(Set(Revoke(t, sid, expiry), sid, s, late, c), sid, late).found == Some(s)
  {
    var s := Copy(revokedAt, expiry + 2);
    CopyCreatedAt(revokedAt, expiry + 2);
  }

  lemma CopyCreatedAt(createdAt: nat, expires: int)
    requires createdAt > 0
    ensures CreatedAt(Copy(createdAt, expires)) == Some(createdAt)
  {
    var s := Copy(createdAt, expires);
    var xs := [s.sessionCreatedAt, s.authenticatedAt, s.mfaCreatedAt, s.flowCreatedAt];
    assert xs[0] == Some(createdAt as int);
    assert Some(createdAt as int) in xs && createdAt in Positives(xs);
    assert forall x :: x in Positives(xs) ==> x == createdAt;
  }

  /** Without an absolute lifetime no tombstone is long enough. */
  lemma NoAbsoluteLifetimeFails(t: Tables, sid: string, expiry: nat, revokedAt: nat, c: Config)
    requires c.absoluteTtlMs == 0 && 0 < revokedAt <= expiry && sid !in t.revoked
    ensures var s, late := Copy(revokedAt, expiry + 2), expiry + 1;
            && OldCopy(SetStep(sid, s, late), sid, revokedAt)
            && Get(Set(Revoke(t, sid, expiry), sid, s, late, c), sid, late).found == Some(s)
  {
    CopyCreatedAt(revokedAt, expiry + 2);
  }
}
