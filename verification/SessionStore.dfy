/** The session store over its two tables, and the functions that limit a user's sessions. */
module SessionStore {
  import opened Wrappers
  import opened Sorting
  import opened Text
  import opened Sessions
  import opened SessionPruning

  class SQLiteSessionStore {
    var sessions: map<string, Row>
    var revoked: map<string, int>
    const config: Config

    constructor (defaultTtlMs: nat, absoluteTtlMs: nat, revocationTtlMs: nat)
      ensures Contents() == Tables(map[], map[])
      ensures config.defaultTtlMs == defaultTtlMs && config.absoluteTtlMs == absoluteTtlMs && ValidConfig(config)
    {
      sessions, revoked := map[], map[];
      var times := [defaultTtlMs as int, revocationTtlMs, absoluteTtlMs];
      assert times[0] in times && times[2] in times;
      config := Config(defaultTtlMs, absoluteTtlMs, Maximum(times));
    }

    function Contents(): Tables
      reads this
    {
      Tables(sessions, revoked)
    }

    /** The tombstone goes in before the row goes out. */
    method RevokeStoredSession(sid: string, stored: Option<StoredSession>, expires: Option<int>, ttlMs: nat, now: nat)
      modifies this
      ensures Contents() == RevokeStored(old(Contents()), sid, RevocationExpiry(stored, expires, ttlMs, now))
    {
      if !IsProtected(sid) {
        sessions := sessions - {sid};
        return;
      }
      var key := Lower(sid);
      var expiry := RevocationExpiry(stored, expires, ttlMs, now);
      revoked := revoked[key := if key in revoked && revoked[key] > expiry then revoked[key] else expiry];
      sessions := sessions - {key};
    }

    method Get(sid: string, now: nat) returns (found: Option<StoredSession>)
      modifies this
      ensures GetResult(Contents(), found) == Sessions.Get(old(Contents()), sid, now)
    {
      if sid in revoked {
        if revoked[sid] >= now {
          sessions := sessions - {sid};
          return None;
        }
      }
      revoked := revoked - {sid};
      if sid !in sessions {
        return None;
      }
      var row := sessions[sid];
      if row.expires < now {
        sessions := sessions - {sid};
        return None;
      }
      var parsed := Decrypt(row.sess);
      if parsed.None? {
        sessions := sessions - {sid};
        return None;
      }
      if row.sess.Plaintext? {
        sessions := sessions[sid := Row(Protected(parsed.value), row.expires)];
      } else {
        assert sessions == sessions[sid := row];
      }
      return parsed;
    }

    method Set(sid: string, s: StoredSession, now: nat)
      requires IsProtected(sid) && Lower(sid) == sid
      modifies this
      ensures Contents() == Sessions.Set(old(Contents()), sid, s, now, config)
    {
      if PastAbsoluteExpiry(s, now, config) {
        RevokeStoredSession(sid, Some(s), None, config.revocationTtlMs, now);
        return;
      }
      if Tombstoned(Contents(), sid, now) {
        sessions := sessions - {sid};
      } else {
        sessions := sessions[sid := Row(Protected(s), CalculateExpiry(s, now, config))];
      }
    }

    method Destroy(sid: string, now: nat)
      requires IsProtected(sid) && Lower(sid) == sid
      modifies this
      ensures Contents() == Sessions.Destroy(old(Contents()), sid, now, config)
    {
      var row := if sid in sessions then Some(sessions[sid]) else None;
      var stored := if row.Some? then Decrypt(row.value.sess) else None;
      RevokeStoredSession(sid, stored, if row.Some? then Some(row.value.expires)
                          else None, config.revocationTtlMs, now);
    }

    method Touch(sid: string, s: StoredSession, now: nat)
      requires IsProtected(sid) && Lower(sid) == sid
      modifies this
      ensures Contents() == Sessions.Touch(old(Contents()), sid, s, now, config)
    {
      if PastAbsoluteExpiry(s, now, config) {
        RevokeStoredSession(sid, Some(s), None, config.revocationTtlMs, now);
        return;
      }
      if sid in sessions && !Tombstoned(Contents(), sid, now) {
        sessions := sessions[sid := sessions[sid].(expires := CalculateExpiry(s, now, config))];
      } else {
        sessions := sessions - {sid};
      }
    }

    method CleanUp(now: nat)
      modifies this
      ensures Contents() == Cleanup(old(Contents()), now)
    {
      sessions := map sid | sid in sessions && sessions[sid].expires >= now :: sessions[sid];
      revoked := map sid | sid in revoked && revoked[sid] >= now :: revoked[sid];
    }

    // ----- limiting the sessions of a user -----

    /** Drops expired rows and lists the user's live sessions. */
    method CollectSessions(q: Request) returns (found: seq<Candidate>)
      modifies `sessions
      ensures Distinct(found) && forall c :: c in found <==> c in Candidates(old(Contents()), q)
      ensures forall sid :: sid in old(sessions) ==> (sid in sessions <==> old(sessions)[sid].expires > q.now)
      ensures forall sid :: sid in sessions ==> sid in old(sessions) && sessions[sid] == old(sessions)[sid]
    {
      ghost var start := Contents();
      found := [];
      var pending := sessions.Keys;
      while pending != {}
        invariant pending <= start.sessions.Keys && pending <= sessions.Keys
        invariant forall sid :: sid in start.sessions ==>
                    (sid in sessions <==> sid in pending || start.sessions[sid].expires > q.now)
        invariant forall sid :: sid in sessions ==> sid in start.sessions && sessions[sid] == start.sessions[sid]
        invariant Distinct(found)
        invariant forall c :: c in found <==> c in Candidates(start, q) && c.sid !in pending
        decreases |pending|
      {
        var sid :| sid in pending;
        var row := sessions[sid];
        pending := pending - {sid};
        if row.expires <= q.now {
          sessions := sessions - {sid};
        } else if IsCandidate(Contents(), q, sid) {
          found := found + [CandidateOf(Contents(), q, sid)];
        }
      }
    }

    /** Revokes the entries of a ranking from the limit on. */
    method RevokeTail(q: Request, ranked: seq<Candidate>, ghost start: Tables)
      requires CanonicalIds(start) && IsRanking(Candidates(start, q), ranked) && revoked == start.revoked
      requires forall sid :: sid in start.sessions ==> (sid in sessions <==> start.sessions[sid].expires > q.now)
      requires forall sid :: sid in sessions ==> sid in start.sessions && sessions[sid] == start.sessions[sid]
      modifies this
      ensures Pruned(start, q, Contents())
    {
      hide Pruned, IsRanking, RevokedSo, ReferencedUser;
      ghost var collected := Contents();
      var i := q.limit;
      NothingRevoked(start, q, ranked);
      while i < |ranked|
        invariant q.limit <= i && (i <= |ranked| || i == q.limit)
        invariant RevokedSo(start, q, collected, ranked, i, Contents())
      {
        ghost var before := Contents();
        StillThere(start, q, collected, ranked, i, before);
        var row := sessions[ranked[i].sid];
        RevokeStoredSession(ranked[i].sid, Some(row.sess.stored), Some(row.expires), q.ttlMs, q.now);
        RevokeNext(start, q, collected, ranked, i, before, Contents());
        i := i + 1;
      }
      RevokedAll(start, q, collected, ranked, Contents());
    }

    /** Revokes the sessions that rank at or beyond the limit. */
    method PruneUserSessions(
      user: int, current: string, maximumSessions: int, ttlMs: nat, now: nat
    ) returns (dropped: nat)
      requires CanonicalIds(Contents())
      modifies this
      ensures var q := Request(user, current, now, SessionLimit(maximumSessions), ttlMs);
              && Pruned(old(Contents()), q, Contents())
              && dropped == |Candidates(old(Contents()), q)| - |Candidates(Contents(), q)|
    {
      hide Pruned, Candidates, CanonicalIds;
      var q := Request(user, current, now, SessionLimit(maximumSessions), ttlMs);
      ghost var start := Contents();
      var found := CollectSessions(q);
      var ranked := SortRanked(found);
      SortKeepsRanking(found);
      RevokeTail(q, ranked, start);
      PrunedCount(start, q, Contents());
      RankingSize(start, q, ranked);
      dropped := if |ranked| > q.limit then |ranked| - q.limit else 0;
    }

    /** Revokes every live session of the user but one. */
    method PurgeUserSessions(user: int, excepted: string, ttlMs: nat, now: nat)
      requires CanonicalIds(Contents())
      modifies this
      ensures Purged(old(Contents()), Request(user, excepted, now, 0, ttlMs), Contents())
    {
      var q := Request(user, excepted, now, 0, ttlMs);
      ghost var start := Contents();
      var pending := sessions.Keys;
      while pending != {}
        invariant pending <= start.sessions.Keys && PurgedSo(start, q, pending, Contents())
        decreases |pending|
      {
        var sid :| sid in pending;
        ghost var before := Contents();
        var row := sessions[sid];
        if row.expires <= now {
          sessions := sessions - {sid};
        } else if sid != excepted && IsCandidate(Contents(), q, sid) {
          RevokeStoredSession(sid, Some(row.sess.stored), Some(row.expires), ttlMs, now);
        }
        PurgeNext(start, q, pending, sid, before, Contents());
        pending := pending - {sid};
      }
    }
  }

  // ----- steps of the loops -----

  function SortRanked(s: seq<Candidate>): (r: seq<Candidate>)
    ensures forall c :: c in r <==> c in s
  {
    if s == [] then [] else InsertRanked(SortRanked(s[..|s| - 1]), s[|s| - 1])
  }

  lemma {:induction false} SortKeepsRanking(s: seq<Candidate>)
    requires Distinct(s)
    ensures Ranked(SortRanked(s)) && Distinct(SortRanked(s))
  {
    if s != [] {
      SortKeepsRanking(s[..|s| - 1]);
      InsertKeepsRanking(SortRanked(s[..|s| - 1]), s[|s| - 1]);
    }
  }

  lemma RankingSize(t: Tables, q: Request, r: seq<Candidate>)
    requires IsRanking(Candidates(t, q), r)
    ensures |Candidates(t, q)| == |r|
  {
    DistinctSetSize(r);
    assert Candidates(t, q) == set c | c in r;
  }

  /** The tables once the entries of the ranking from the limit up to i are revoked. */
  ghost predicate RevokedSo(start: Tables, q: Request, collected: Tables, r: seq<Candidate>, i: nat, t: Tables) {
    && (forall sid :: sid in t.sessions ==> sid in collected.sessions && t.sessions[sid] == collected.sessions[sid])
    && (forall sid :: sid in collected.sessions ==> (sid in t.sessions <==> !InRange(r, q.limit, i, sid)))
    && (forall sid :: sid in start.revoked ==> sid in t.revoked && t.revoked[sid] >= start.revoked[sid])
    && (forall sid :: InRange(r, q.limit, i, sid) && IsProtected(sid) ==>
        sid in t.revoked && t.revoked[sid] >= q.now + q.ttlMs)
  }

  ghost predicate InRange(r: seq<Candidate>, low: nat, high: nat, sid: string) {
    exists k :: low <= k < high && k < |r| && r[k].sid == sid
  }

  lemma NothingRevoked(t: Tables, q: Request, r: seq<Candidate>)
    ensures forall u: Tables :: u.revoked == t.revoked ==> RevokedSo(t, q, u, r, q.limit, u)
  {}

  /** The next entry of the ranking was not touched yet. */
  lemma StillThere(start: Tables, q: Request, collected: Tables, r: seq<Candidate>, i: nat, t: Tables)
    requires RevokedSo(start, q, collected, r, i, t) && q.limit <= i < |r| && IsRanking(Candidates(start, q), r)
    requires forall sid :: sid in start.sessions ==>
             (sid in collected.sessions <==> start.sessions[sid].expires > q.now)
    requires forall sid :: sid in collected.sessions ==>
             sid in start.sessions && collected.sessions[sid] == start.sessions[sid]
    ensures IsCandidate(start, q, r[i].sid) && r[i].sid in t.sessions
    ensures t.sessions[r[i].sid] == start.sessions[r[i].sid]
  {
    hide ReferencedUser, ActivityTime;
    assert r[i] in Candidates(start, q);
    forall k | q.limit <= k < i ensures r[k].sid != r[i].sid {
      assert r[k] in Candidates(start, q) && r[k] != r[i];
    }
  }

  lemma RevokeNext(start: Tables, q: Request, collected: Tables, r: seq<Candidate>, i: nat, t: Tables, t': Tables)
    requires RevokedSo(start, q, collected, r, i, t) && q.limit <= i < |r|
    requires IsProtected(r[i].sid) ==> Lower(r[i].sid) == r[i].sid
    requires exists expiry :: expiry >= q.now + q.ttlMs && t' == RevokeStored(t, r[i].sid, expiry)
    ensures RevokedSo(start, q, collected, r, i + 1, t')
  {
    forall sid ensures InRange(r, q.limit, i + 1, sid) <==> InRange(r, q.limit, i, sid) || sid == r[i].sid {
      RangeNext(r, q.limit, i, sid);
    }
  }

  lemma RangeNext(r: seq<Candidate>, low: nat, i: nat, sid: string)
    requires low <= i < |r|
    ensures InRange(r, low, i + 1, sid) <==> InRange(r, low, i, sid) || sid == r[i].sid
  {
    if InRange(r, low, i, sid) {
      var k :| low <= k < i && k < |r| && r[k].sid == sid;
      assert k < i + 1;
    }
  }

  /** Candidates in the tail of a ranking are the dropped ones. */
  lemma TailIsDropped(t: Tables, q: Request, r: seq<Candidate>, sid: string)
    requires IsRanking(Candidates(t, q), r)
    ensures InRange(r, q.limit, |r|, sid) <==> IsDropped(t, q, sid)
  {
    hide Rank, ActivityTime, ReferencedUser;
    if InRange(r, q.limit, |r|, sid) {
      var k :| q.limit <= k < |r| && r[k].sid == sid;
      assert r[k] in Candidates(t, q);
      RankIsPosition(Candidates(t, q), r, k);
    }
    if IsDropped(t, q, sid) {
      assert CandidateOf(t, q, sid) in Candidates(t, q);
      var k :| 0 <= k < |r| && r[k] == CandidateOf(t, q, sid);
      RankIsPosition(Candidates(t, q), r, k);
    }
  }

  lemma RevokedAll(start: Tables, q: Request, collected: Tables, r: seq<Candidate>, t: Tables)
    requires IsRanking(Candidates(start, q), r)
    requires RevokedSo(start, q, collected, r, |r|, t)
             || (|r| < q.limit && RevokedSo(start, q, collected, r, q.limit, t))
    requires forall sid :: sid in start.sessions ==>
             (sid in collected.sessions <==> start.sessions[sid].expires > q.now)
    requires forall sid :: sid in collected.sessions ==>
             sid in start.sessions && collected.sessions[sid] == start.sessions[sid]
    ensures Pruned(start, q, t)
  {
    hide IsDropped, IsRanking;
    forall sid ensures InRange(r, q.limit, |r|, sid) <==> IsDropped(start, q, sid) {
      TailIsDropped(start, q, r, sid);
    }
  }

  /** The tables once every row outside pending was visited. */
  ghost predicate PurgedSo(start: Tables, q: Request, pending: set<string>, t: Tables) {
    && OnlyRevokes(start, t)
    && (forall sid :: sid in start.sessions ==>
          (sid in t.sessions <==>
             sid in pending
                 || (start.sessions[sid].expires > q.now && (sid == q.current || !IsCandidate(start, q, sid)))))
    && (forall sid :: sid in t.sessions ==> sid in start.sessions && t.sessions[sid] == start.sessions[sid])
    && (forall sid :: IsCandidate(start, q, sid) && sid !in pending && sid != q.current && IsProtected(sid) ==>
          sid in t.revoked && t.revoked[sid] >= q.now + q.ttlMs)
  }

  lemma PurgeNext(start: Tables, q: Request, pending: set<string>, sid: string, t: Tables, t': Tables)
    requires PurgedSo(start, q, pending, t) && sid in pending && sid in t.sessions
    requires IsProtected(sid) ==> Lower(sid) == sid
    requires if t.sessions[sid].expires <= q.now then t' == t.(sessions := t.sessions - {sid})
             else if sid != q.current && IsCandidate(t, q, sid) then
               exists expiry :: expiry >= q.now + q.ttlMs && t' == RevokeStored(t, sid, expiry)
             else t' == t
    ensures PurgedSo(start, q, pending - {sid}, t')
  {
    hide ReferencedUser;
  }
}
