/** Limiting and purging the sessions of one user (src/session-store.js). */
module SessionPruning {
  import opened Wrappers
  import opened Sorting
  import opened Text
  import opened Names
  import opened Sessions

  // ----- storage identifiers -----

  predicate HexDigit(c: char) {
    '0' <= c <= '9' || 'a' <= c <= 'f' || 'A' <= c <= 'F'
  }

  /** A keyed hash in hexadecimal; anything else is a raw identifier of an old version. */
  predicate IsProtected(sid: string) {
    |sid| == 64 && forall i :: 0 <= i < |sid| ==> HexDigit(sid[i])
  }

  /** Keyed hashes are written in lower case. */
  ghost predicate CanonicalIds(t: Tables) {
    forall sid :: sid in t.sessions && IsProtected(sid) ==> Lower(sid) == sid
  }

  /** revokeStoredSession: a raw identifier gets no tombstone. */
  function RevokeStored(t: Tables, sid: string, expiry: int): Tables {
    if IsProtected(sid) then Revoke(t, Lower(sid), expiry) else t.(sessions := t.sessions - {sid})
  }

  // ----- candidates and their ranking -----

  function ReferencedUser(s: StoredSession): Option<int> {
    var users := Positives([s.userId, s.mfaUserId, s.webAuthnUserId, s.flowUserId]);
    if users == [] then None else Some(users[0])
  }

  function ActivityTime(s: StoredSession, expires: int): int {
    var times := Finite([s.authenticatedAt, s.mfaCreatedAt, s.webAuthnCreatedAt, s.flowCreatedAt, Some(expires)]);
    assert expires in times;
    Maximum(times)
  }

  /** One user's pruning: who, which session is the current one, when, and how many may stay. */
  datatype Request = Request(user: int, current: string, now: nat, limit: nat, ttlMs: nat)

  function SessionLimit(maximum: int): nat {
    var wanted := if maximum == 0 then 10 else maximum;
    if wanted < 1 then 1 else if wanted > 100 then 100 else wanted
  }

  predicate IsCandidate(t: Tables, q: Request, sid: string) {
    && sid in t.sessions && t.sessions[sid].expires > q.now
    && !t.sessions[sid].sess.Corrupt? && ReferencedUser(t.sessions[sid].sess.stored) == Some(q.user)
  }

  /** What the sort looks at. */
  datatype Candidate = Candidate(sid: string, current: bool, activity: int)

  function CandidateOf(t: Tables, q: Request, sid: string): Candidate
    requires IsCandidate(t, q, sid)
  {
    Candidate(sid, sid == q.current, ActivityTime(t.sessions[sid].sess.stored, t.sessions[sid].expires))
  }

  ghost function Candidates(t: Tables, q: Request): set<Candidate> {
    set sid | sid in t.sessions && IsCandidate(t, q, sid) :: CandidateOf(t, q, sid)
  }

  predicate LexLeq(a: string, b: string) {
    a == "" || (b != "" && (a[0] < b[0] || (a[0] == b[0] && LexLeq(a[1..], b[1..]))))
  }

  lemma {:induction false} LexTotal(a: string, b: string)
    ensures LexLeq(a, b) || LexLeq(b, a)
    ensures LexLeq(a, b) && LexLeq(b, a) ==> a == b
  {
    if a != "" && b != "" {
      LexTotal(a[1..], b[1..]);
      assert a == [a[0]] + a[1..] && b == [b[0]] + b[1..];
    }
  }

  lemma {:induction false} LexTransitive(a: string, b: string, c: string)
    requires LexLeq(a, b) && LexLeq(b, c)
    ensures LexLeq(a, c)
  {
    if a != "" && a[0] == b[0] == c[0] {
      LexTransitive(a[1..], b[1..], c[1..]);
    }
  }

  /** The comparator: the current session first, then the latest activity, then the identifier. */
  predicate Before(a: Candidate, b: Candidate) {
    if a.current != b.current then a.current
    else if a.activity != b.activity then a.activity > b.activity
    else LexLeq(a.sid, b.sid)
  }

  lemma BeforeTotal(a: Candidate, b: Candidate)
    ensures Before(a, b) || Before(b, a)
    ensures Before(a, b) && Before(b, a) ==> a == b
  {
    LexTotal(a.sid, b.sid);
  }

  lemma BeforeTransitive(a: Candidate, b: Candidate, c: Candidate)
    requires Before(a, b) && Before(b, c)
    ensures Before(a, c)
  {
    if LexLeq(a.sid, b.sid) && LexLeq(b.sid, c.sid) {
      LexTransitive(a.sid, b.sid, c.sid);
    }
  }

  // ----- rankings -----

  /** How many others rank before this one. */
  ghost function Rank(all: set<Candidate>, c: Candidate): nat {
    |Ahead(all, c)|
  }

  ghost function Ahead(all: set<Candidate>, c: Candidate): set<Candidate> {
    set other | other in all && other != c && Before(other, c)
  }

  ghost predicate Ranked(r: seq<Candidate>) {
    forall i, j :: 0 <= i < j < |r| ==> Before(r[i], r[j])
  }

  /** All of them, once each, in order. */
  ghost predicate IsRanking(all: set<Candidate>, r: seq<Candidate>) {
    Distinct(r) && Ranked(r) && forall c :: c in r <==> c in all
  }

  lemma {:induction false} DistinctSetSize<T>(s: seq<T>)
    requires Distinct(s)
    ensures |set x | x in s| == |s|
  {
    if s != [] {
      var rest, last := s[..|s| - 1], s[|s| - 1];
      DistinctSetSize(rest);
      assert (set x | x in s) == (set x | x in rest) + {last};
    }
  }

  /** In a ranking, the rank of an entry is its position. */
  lemma RankIsPosition(all: set<Candidate>, r: seq<Candidate>, i: nat)
    requires IsRanking(all, r) && i < |r|
    ensures Rank(all, r[i]) == i
  {
    forall other ensures other in Ahead(all, r[i]) <==> other in r[..i] {
      if other in Ahead(all, r[i]) {
        var j :| 0 <= j < |r| && r[j] == other;
        if j > i {
          BeforeTotal(r[i], r[j]);
        }
      }
    }
    assert Ahead(all, r[i]) == set x | x in r[..i];
    DistinctSetSize(r[..i]);
  }

  /** Insertion by the comparator. */
  function InsertRanked(s: seq<Candidate>, x: Candidate): (r: seq<Candidate>)
    ensures forall y :: y in r <==> y in s || y == x
    ensures |r| == |s| + 1
  {
    if s == [] || !Before(s[0], x) then [x] + s else [s[0]] + InsertRanked(s[1..], x)
  }

  lemma {:induction false} InsertKeepsRanking(s: seq<Candidate>, x: Candidate)
    requires Ranked(s) && Distinct(s) && x !in s
    ensures Ranked(InsertRanked(s, x)) && Distinct(InsertRanked(s, x))
  {
    if s == [] || !Before(s[0], x) {
      forall j | 0 <= j < |s| ensures Before(x, s[j]) {
        BeforeTotal(s[0], x);
        if j > 0 { BeforeTransitive(x, s[0], s[j]); }
      }
    } else {
      var rest := InsertRanked(s[1..], x);
      InsertKeepsRanking(s[1..], x);
      forall j | 0 <= j < |rest| ensures Before(s[0], rest[j]) && rest[j] != s[0] {
        assert rest[j] in rest;
      }
    }
  }

  lemma {:induction false} RankingExists(all: set<Candidate>) returns (r: seq<Candidate>)
    ensures IsRanking(all, r)
  {
    if all == {} {
      r := [];
    } else {
      var x :| x in all;
      var rest := RankingExists(all - {x});
      r := InsertRanked(rest, x);
      InsertKeepsRanking(rest, x);
    }
  }

  // ----- pruning -----

  ghost predicate IsDropped(t: Tables, q: Request, sid: string) {
    IsCandidate(t, q, sid) && Rank(Candidates(t, q), CandidateOf(t, q, sid)) >= q.limit
  }

  /** Exactly the expired rows and the lowest-ranked candidates are gone; every dropped keyed id
      has a tombstone of full length, and no tombstone was shortened. */
  ghost predicate Pruned(t: Tables, q: Request, t': Tables) {
    && OnlyRevokes(t, t')
    && (forall sid :: sid in t.sessions ==>
          (sid in t'.sessions <==> t.sessions[sid].expires > q.now && !IsDropped(t, q, sid)))
    && (forall sid :: sid in t'.sessions ==> sid in t.sessions && t'.sessions[sid] == t.sessions[sid])
    && (forall sid :: IsDropped(t, q, sid) && IsProtected(sid) ==>
          sid in t'.revoked && t'.revoked[sid] >= q.now + q.ttlMs)
  }

  lemma StaysByRank(t: Tables, q: Request, t': Tables, c: Candidate)
    requires Pruned(t, q, t')
    ensures c in Candidates(t', q) <==> c in Candidates(t, q) && Rank(Candidates(t, q), c) < q.limit
  {
    hide Rank, OnlyRevokes, ActivityTime, ReferencedUser;
  }

  lemma PrunedCandidates(t: Tables, q: Request, t': Tables, r: seq<Candidate>)
    requires Pruned(t, q, t') && IsRanking(Candidates(t, q), r)
    ensures forall c :: c in Candidates(t', q) <==> c in Kept(r, q.limit)
  {
    hide Pruned, Candidates, Rank, Before;
    forall c ensures c in Candidates(t', q) <==> c in Kept(r, q.limit) {
      StaysByRank(t, q, t', c);
      if c in r {
        var i :| 0 <= i < |r| && r[i] == c;
        RankIsPosition(Candidates(t, q), r, i);
        assert c in Kept(r, q.limit) <==> i < q.limit;
      }
    }
  }

  function Kept(r: seq<Candidate>, limit: nat): seq<Candidate> {
    if |r| <= limit then r else r[..limit]
  }

  /** At most limit live sessions stay, and exactly limit when there were more. */
  lemma PrunedCount(t: Tables, q: Request, t': Tables)
    requires Pruned(t, q, t')
    ensures var before, after := |Candidates(t, q)|, |Candidates(t', q)|;
            after == if before <= q.limit then before else q.limit
  {
    hide Pruned;
    var r := RankingExists(Candidates(t, q));
    PrunedCandidates(t, q, t', r);
    DistinctSetSize(r);
    assert Candidates(t, q) == set c | c in r;
    DistinctSetSize(Kept(r, q.limit));
    assert Candidates(t', q) == set c | c in Kept(r, q.limit);
  }

  /** The current session stays if it was live. */
  lemma PrunedKeepsCurrent(t: Tables, q: Request, t': Tables)
    requires Pruned(t, q, t') && q.limit >= 1 && IsCandidate(t, q, q.current)
    ensures IsCandidate(t', q, q.current)
  {
    hide OnlyRevokes, ActivityTime, ReferencedUser;
    CurrentComesFirst(t, q);
  }

  lemma CurrentComesFirst(t: Tables, q: Request)
    requires q.limit >= 1 && IsCandidate(t, q, q.current)
    ensures !IsDropped(t, q, q.current)
  {
    hide ActivityTime, ReferencedUser, LexLeq;
    assert Ahead(Candidates(t, q), CandidateOf(t, q, q.current)) == {};
  }

  /** What stays ranks before what went. */
  lemma PrunedKeepsBest(t: Tables, q: Request, t': Tables, kept: string, gone: string)
    requires Pruned(t, q, t') && IsCandidate(t', q, kept) && IsDropped(t, q, gone)
    ensures IsCandidate(t, q, kept)
    ensures Before(CandidateOf(t, q, kept), CandidateOf(t, q, gone))
  {
    hide Rank;
    var all := Candidates(t, q);
    var r := RankingExists(all);
    var k, g := CandidateOf(t, q, kept), CandidateOf(t, q, gone);
    assert k in all && g in all;
    var i :| 0 <= i < |r| && r[i] == k;
    var j :| 0 <= j < |r| && r[j] == g;
    RankIsPosition(all, r, i);
    RankIsPosition(all, r, j);
  }

  /** Sessions of other users that are still live are left as they were. */
  lemma PrunedLeavesOthers(t: Tables, q: Request, t': Tables, sid: string)
    requires Pruned(t, q, t') && sid in t.sessions && t.sessions[sid].expires > q.now && !IsCandidate(t, q, sid)
    ensures sid in t'.sessions && t'.sessions[sid] == t.sessions[sid]
  {}

  /** A dropped session never comes back. */
  lemma PrunedNeverReturns(
    t: Tables, q: Request, sid: string, states: seq<Tables>, steps: seq<Step>, c: Config, i: nat, now: nat
  )
    requires c.absoluteTtlMs > 0 && q.ttlMs >= c.absoluteTtlMs && IsDropped(t, q, sid) && IsProtected(sid)
    requires IsRun(states, steps, q.now, c) && Pruned(t, q, states[0])
    requires forall k :: 0 <= k < |steps| ==> OldCopy(steps[k], sid, q.now)
    requires i < |states| && (i > 0 ==> steps[i - 1].now <= now)
    ensures Get(states[i], sid, now).found.None?
  {
    hide Follows, OldCopy;
    DeadThroughRun(states, steps, sid, q.now, c, i);
  }

  // ----- purging -----

  /** Every live session of the user but the excepted one is gone, with a tombstone. */
  ghost predicate Purged(t: Tables, q: Request, t': Tables) {
    && OnlyRevokes(t, t')
    && (forall sid :: sid in t.sessions ==>
          (sid in t'.sessions <==> t.sessions[sid].expires > q.now && (sid == q.current || !IsCandidate(t, q, sid))))
    && (forall sid :: sid in t'.sessions ==> sid in t.sessions && t'.sessions[sid] == t.sessions[sid])
    && (forall sid :: IsCandidate(t, q, sid) && sid != q.current && IsProtected(sid) ==>
          sid in t'.revoked && t'.revoked[sid] >= q.now + q.ttlMs)
  }

  lemma PurgedNeverReturns(
    t: Tables, q: Request, sid: string, states: seq<Tables>, steps: seq<Step>, c: Config, i: nat, now: nat
  )
    requires c.absoluteTtlMs > 0 && q.ttlMs >= c.absoluteTtlMs && IsCandidate(t, q, sid) && sid != q.current
    requires IsProtected(sid)
    requires IsRun(states, steps, q.now, c) && Purged(t, q, states[0])
    requires forall k :: 0 <= k < |steps| ==> OldCopy(steps[k], sid, q.now)
    requires i < |states| && (i > 0 ==> steps[i - 1].now <= now)
    ensures Get(states[i], sid, now).found.None?
  {
    hide Follows, OldCopy;
    DeadThroughRun(states, steps, sid, q.now, c, i);
  }
}
