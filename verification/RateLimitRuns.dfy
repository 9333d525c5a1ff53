/** Runs of one failure map: what holds after any number of attempts, completions and clears. */
module RateLimitRuns {
  import opened Wrappers
  import opened RateLimit

  datatype Entry = Entry(key: string, serial: nat)

  /** The map, the live reservations with the record each one holds, and for every key the times
      of the failures since it was last cleared or evicted. */
  datatype State = State(table: Table, live: map<nat, Entry>, logs: map<string, seq<nat>>, clock: nat)

  datatype Step =
    | Prune(now: nat)
    | Check(key: string, now: nat)
    | Attempt(id: nat, key: string, now: nat)
    | Finish(id: nat, failed: bool, now: nat)
    | Forgive(key: string, now: nat)

  function LogOf(logs: map<string, seq<nat>>, key: string): seq<nat> {
    if key in logs then logs[key] else []
  }

  function RecordOf(t: Table, key: string): Option<Record> {
    if key in t.records then Some(t.records[key]) else None
  }

  function LiveOn(live: map<nat, Entry>, key: string): set<nat> {
    set id | id in live && live[id].key == key
  }

  /** A reservation is taken unless the key is at its maximum. */
  function Reserved(s: State, id: nat, key: string, policy: Policy): State {
    var refreshed := Refresh(s.table, key, s.clock, policy);
    if Blocked(refreshed, key, policy) then s.(table := refreshed)
    else Evicted(Taken(s.(table := Opened(refreshed, key, s.clock)), id, key))
  }

  function Taken(s: State, id: nat, key: string): State
    requires key in s.table.records
  {
    s.(table := Take(s.table, key), live := s.live[id := Entry(key, s.table.records[key].serial)])
  }

  function Evicted(s: State): State {
    var left := Evict(s.table, s.table.order, MAX_TRACKED_KEYS);
    s.(table := left, logs := s.logs - (s.table.records.Keys - left.records.Keys))
  }

  function Finished(s: State, id: nat, failed: bool, policy: Policy): State
    requires id in s.live
  {
    var e := s.live[id];
    s.(table := Complete(s.table, e.key, e.serial, failed, s.clock, policy), live := s.live - {id},
       logs := if failed then s.logs[e.key := LogOf(s.logs, e.key) + [s.clock]] else s.logs)
  }

  predicate Enabled(s: State, step: Step) {
    && s.clock <= step.now
    && (step.Attempt? ==> step.id !in s.live)
    && (step.Finish? ==> step.id in s.live)
  }

  function Apply(s: State, step: Step, policy: Policy): State
    requires Enabled(s, step)
  {
    var t := s.(clock := step.now);
    match step
    case Prune(now) => t.(table := RefreshAll(t.table, t.table.order, now, policy))
    case Check(key, now) => t.(table := Refresh(t.table, key, now, policy))
    case Attempt(id, key, now) => Reserved(t, id, key, policy)
    case Finish(id, failed, now) => Finished(t, id, failed, policy)
    case Forgive(key, now) => t.(table := Clear(t.table, key), logs := t.logs - {key})
  }

  /** The map after the two checks and the reservation of one admitted request is the one the
      run has after that attempt. */
  lemma AttemptIsReserve(s: State, id: nat, key: string, policy: Policy)
    ensures var refreshed := Refresh(s.table, key, s.clock, policy);
            Reserved(s, id, key, policy).table
            == if Blocked(refreshed, key, policy) then refreshed else Reserve(refreshed, key, s.clock, policy)
  {
    hide Evict;
    var refreshed := Refresh(s.table, key, s.clock, policy);
    assert key in refreshed.records ==> refreshed.Put(key, refreshed.records[key]) == refreshed;
    assert Refresh(refreshed, key, s.clock, policy) == refreshed;
  }

  // ----- the invariant -----

  ghost predicate KeyInvariant(s: State, policy: Policy, key: string) {
    && LogMatches(RecordOf(s.table, key), LogOf(s.logs, key), s.clock, policy)
    && match RecordOf(s.table, key)
       case None => LiveOn(s.live, key) == {}
       case Some(r) => r.count + r.inFlight <= policy.maximum && r.inFlight == |LiveOn(s.live, key)|
  }

  /** Each live reservation still finds the record it took. */
  ghost predicate HoldsRecord(s: State, id: nat)
    requires id in s.live
  {
    !Replaced(s.table, s.live[id].key, s.live[id].serial)
  }

  ghost predicate Invariant(s: State, policy: Policy) {
    && WellFormed(s.table)
    && (forall key :: KeyInvariant(s, policy, key))
    && (forall id :: id in s.live ==> HoldsRecord(s, id))
  }

  lemma LaterInvariant(s: State, now: nat, policy: Policy)
    requires Invariant(s, policy) && s.clock <= now
    ensures Invariant(s.(clock := now), policy)
  {
    hide LogMatches, WellFormed;
    var t := s.(clock := now);
    forall key ensures KeyInvariant(t, policy, key) {
      assert KeyInvariant(s, policy, key);
      LogLater(RecordOf(s.table, key), LogOf(s.logs, key), s.clock, now, policy);
    }
    assert forall id :: id in s.live ==> HoldsRecord(s, id);
  }

  lemma RefreshInvariant(s: State, key: string, policy: Policy)
    requires Invariant(s, policy)
    ensures Invariant(s.(table := Refresh(s.table, key, s.clock, policy)), policy)
  {
    hide LogMatches, WellFormed;
    var t := s.(table := Refresh(s.table, key, s.clock, policy));
    RefreshWellFormed(s.table, key, s.clock, policy);
    forall other ensures KeyInvariant(t, policy, other) {
      assert KeyInvariant(s, policy, other);
      if other == key && t.table != s.table {
        LogExpired(s.table.records[key], LogOf(s.logs, key), s.clock, policy);
      }
    }
    forall id | id in t.live ensures HoldsRecord(t, id) {
      assert HoldsRecord(s, id) && KeyInvariant(s, policy, key);
      assert s.live[id].key == key ==> id in LiveOn(s.live, key);
    }
  }

  lemma {:induction false} RefreshAllInvariant(s: State, keys: seq<string>, policy: Policy)
    requires Invariant(s, policy)
    ensures Invariant(s.(table := RefreshAll(s.table, keys, s.clock, policy)), policy)
    decreases |keys|
  {
    hide Invariant, Refresh;
    if keys != [] {
      RefreshInvariant(s, keys[0], policy);
      RefreshAllInvariant(s.(table := Refresh(s.table, keys[0], s.clock, policy)), keys[1..], policy);
    }
  }

  lemma OpenedInvariant(s: State, key: string, policy: Policy)
    requires Invariant(s, policy)
    ensures Invariant(s.(table := Opened(s.table, key, s.clock)), policy)
  {
    hide LogMatches, WellFormed;
    var t := s.(table := Opened(s.table, key, s.clock));
    OpenedWellFormed(s.table, key, s.clock);
    forall other ensures KeyInvariant(t, policy, other) {
      assert KeyInvariant(s, policy, other);
      if other == key && key !in s.table.records {
        LogOpened(LogOf(s.logs, key), s.clock, policy, s.table.nextSerial);
      }
    }
    forall id | id in t.live ensures HoldsRecord(t, id) {
      assert HoldsRecord(s, id);
    }
  }

  lemma KeyUnchanged(s: State, t: State, policy: Policy, key: string)
    requires KeyInvariant(s, policy, key) && t.clock == s.clock
    requires RecordOf(t.table, key) == RecordOf(s.table, key) && LogOf(t.logs, key) == LogOf(s.logs, key)
    requires LiveOn(t.live, key) == LiveOn(s.live, key)
    ensures KeyInvariant(t, policy, key)
  {
    hide LogMatches;
  }

  lemma TakenKey(s: State, id: nat, key: string, policy: Policy)
    requires KeyInvariant(s, policy, key) && key in s.table.records && id !in s.live
    requires s.table.records[key].count + s.table.records[key].inFlight < policy.maximum
    ensures KeyInvariant(Taken(s, id, key), policy, key)
  {
    hide LogMatches;
    var r := s.table.records[key];
    LogInFlight(r, LogOf(s.logs, key), s.clock, policy, r.inFlight + 1);
    assert LiveOn(Taken(s, id, key).live, key) == LiveOn(s.live, key) + {id};
  }

  lemma TakenInvariant(s: State, id: nat, key: string, policy: Policy)
    requires Invariant(s, policy) && key in s.table.records && id !in s.live
    requires s.table.records[key].count + s.table.records[key].inFlight < policy.maximum
    ensures Invariant(Taken(s, id, key), policy)
  {
    hide LogMatches, WellFormed, KeyInvariant;
    var t, r := Taken(s, id, key), s.table.records[key];
    SameSerialWellFormed(s.table, key, r.(inFlight := r.inFlight + 1));
    forall other ensures KeyInvariant(t, policy, other) {
      assert KeyInvariant(s, policy, other);
      if other == key {
        TakenKey(s, id, key, policy);
      } else {
        assert LiveOn(t.live, other) == LiveOn(s.live, other);
        KeyUnchanged(s, t, policy, other);
      }
    }
    forall other | other in t.live ensures HoldsRecord(t, other) {
      assert other != id ==> HoldsRecord(s, other);
    }
  }

  lemma EvictedKey(s: State, policy: Policy, key: string)
    requires WellFormed(s.table) && KeyInvariant(s, policy, key)
    ensures KeyInvariant(Evicted(s), policy, key)
    ensures LiveOn(s.live, key) != {} ==> RecordOf(Evicted(s).table, key) == RecordOf(s.table, key)
  {
    hide LogMatches, WellFormed, Evict;
    EvictKeeps(s.table, s.table.order, MAX_TRACKED_KEYS);
    if key in s.table.records && key !in Evicted(s).table.records {
      ForgottenIdle(s, policy, key);
    }
  }

  lemma EvictedInvariant(s: State, policy: Policy)
    requires Invariant(s, policy)
    ensures Invariant(Evicted(s), policy)
  {
    hide LogMatches, WellFormed, KeyInvariant, Evicted;
    EvictedShape(s);
    forall key ensures KeyInvariant(Evicted(s), policy, key) {
      assert KeyInvariant(s, policy, key);
      EvictedKey(s, policy, key);
    }
    forall id | id in s.live ensures HoldsRecord(Evicted(s), id) {
      assert HoldsRecord(s, id) && KeyInvariant(s, policy, s.live[id].key);
      assert id in LiveOn(s.live, s.live[id].key);
      EvictedKey(s, policy, s.live[id].key);
    }
  }

  lemma EvictedShape(s: State)
    requires WellFormed(s.table)
    ensures WellFormed(Evicted(s).table) && Evicted(s).live == s.live
  {
    EvictKeeps(s.table, s.table.order, MAX_TRACKED_KEYS);
  }

  lemma ForgottenIdle(s: State, policy: Policy, key: string)
    requires KeyInvariant(s, policy, key) && key in s.table.records
    ensures LogMatches(None, [], s.clock, policy)
    ensures LogMatches(Some(s.table.records[key].(count := 0)), [], s.clock, policy)
  {
    LogForgotten(s.table.records[key], s.clock, policy);
  }

  lemma ReservedInvariant(s: State, id: nat, key: string, policy: Policy)
    requires Invariant(s, policy) && id !in s.live && policy.maximum > 0
    ensures Invariant(Reserved(s, id, key, policy), policy)
  {
    hide Invariant, Refresh, Evicted;
    RefreshInvariant(s, key, policy);
    var refreshed := s.(table := Refresh(s.table, key, s.clock, policy));
    if !Blocked(refreshed.table, key, policy) {
      OpenedInvariant(refreshed, key, policy);
      var o := refreshed.(table := Opened(refreshed.table, key, s.clock));
      TakenInvariant(o, id, key, policy);
      EvictedInvariant(Taken(o, id, key), policy);
    }
  }

  /** The record of a completed attempt, before it is dropped for being empty. */
  function Landed(r: Record, failed: bool, now: nat, policy: Policy): Record {
    var windowed := if now - r.startedAt >= policy.windowMs then r.(count := 0, startedAt := now) else r;
    windowed.(inFlight := if windowed.inFlight > 0 then windowed.inFlight - 1 else 0,
              count := windowed.count + if failed then 1 else 0)
  }

  lemma LandedLog(r: Record, f: seq<nat>, failed: bool, now: nat, policy: Policy)
    requires LogMatches(Some(r), f, now, policy) && r.inFlight > 0 && r.count + r.inFlight <= policy.maximum
    ensures LogMatches(Some(Landed(r, failed, now, policy)), if failed then f + [now] else f, now, policy)
    ensures Landed(r, failed, now, policy).count == 0 ==> !failed && LogMatches(None, f, now, policy)
  {
    hide LogMatches;
    var expired := now - r.startedAt >= policy.windowMs;
    var windowed := if expired then r.(count := 0, startedAt := now) else r;
    if expired {
      LogExpired(r, f, now, policy);
    }
    var landed := windowed.(inFlight := r.inFlight - 1);
    LogInFlight(windowed, f, now, policy, r.inFlight - 1);
    if failed {
      LogFailure(landed, f, now, policy);
    } else if landed.count == 0 {
      LogEmptied(landed, f, now, policy);
    }
  }

  /** The map after the completion of an attempt whose record is still there. */
  lemma FinishedShape(s: State, id: nat, failed: bool, policy: Policy)
    requires WellFormed(s.table) && id in s.live && HoldsRecord(s, id)
    ensures var t, key := Finished(s, id, failed, policy), s.live[id].key;
            var landed := Landed(s.table.records[key], failed, s.clock, policy);
            && WellFormed(t.table) && t.live == s.live - {id} && t.clock == s.clock
            && RecordOf(t.table, key) == (if landed.count == 0 && landed.inFlight == 0 then None else Some(landed))
            && LogOf(t.logs, key) == (if failed then LogOf(s.logs, key) + [s.clock] else LogOf(s.logs, key))
            && (forall other :: other != key ==>
                  RecordOf(t.table, other) == RecordOf(s.table, other) && LogOf(t.logs, other) == LogOf(s.logs, other))
  {
    hide WellFormed, RecordFailure;
    var key := s.live[id].key;
    SameSerialWellFormed(s.table, key, Landed(s.table.records[key], failed, s.clock, policy));
    DeleteWellFormed(s.table, key);
  }

  lemma FinishedKey(s: State, id: nat, failed: bool, policy: Policy)
    requires WellFormed(s.table) && id in s.live && HoldsRecord(s, id) && KeyInvariant(s, policy, s.live[id].key)
    ensures KeyInvariant(Finished(s, id, failed, policy), policy, s.live[id].key)
  {
    hide LogMatches, WellFormed, Finished;
    var t, key := Finished(s, id, failed, policy), s.live[id].key;
    assert id in LiveOn(s.live, key);
    LandedLog(s.table.records[key], LogOf(s.logs, key), failed, s.clock, policy);
    FinishedShape(s, id, failed, policy);
    assert LiveOn(t.live, key) == LiveOn(s.live, key) - {id};
  }

  lemma FinishedInvariant(s: State, id: nat, failed: bool, policy: Policy)
    requires Invariant(s, policy) && id in s.live
    ensures Invariant(Finished(s, id, failed, policy), policy)
  {
    hide LogMatches, WellFormed, Finished;
    var t, key := Finished(s, id, failed, policy), s.live[id].key;
    assert HoldsRecord(s, id) && KeyInvariant(s, policy, key);
    FinishedShape(s, id, failed, policy);
    FinishedKey(s, id, failed, policy);
    forall other ensures KeyInvariant(t, policy, other) {
      assert KeyInvariant(s, policy, other);
      if other != key {
        assert LiveOn(t.live, other) == LiveOn(s.live, other);
        KeyUnchanged(s, t, policy, other);
      }
    }
    forall other | other in t.live ensures HoldsRecord(t, other) {
      assert HoldsRecord(s, other) && KeyInvariant(t, policy, s.live[other].key);
      assert other in LiveOn(t.live, s.live[other].key);
      assert RecordOf(t.table, s.live[other].key).Some?;
      assert s.live[other].key != key ==> RecordOf(t.table, s.live[other].key) == RecordOf(s.table, s.live[other].key);
    }
  }

  lemma ForgivenInvariant(s: State, key: string, policy: Policy)
    requires Invariant(s, policy)
    ensures Invariant(s.(table := Clear(s.table, key), logs := s.logs - {key}), policy)
  {
    hide LogMatches, WellFormed;
    var t := s.(table := Clear(s.table, key), logs := s.logs - {key});
    DeleteWellFormed(s.table, key);
    if key in s.table.records {
      SameSerialWellFormed(s.table, key, s.table.records[key].(count := 0));
    }
    forall other ensures KeyInvariant(t, policy, other) {
      assert KeyInvariant(s, policy, other);
      if other == key {
        if key in s.table.records {
          ForgottenIdle(s, policy, key);
        } else {
          EmptyLog(s.clock, policy);
        }
      }
    }
    forall id | id in t.live ensures HoldsRecord(t, id) {
      assert HoldsRecord(s, id) && KeyInvariant(s, policy, key);
      assert s.live[id].key == key ==> id in LiveOn(s.live, key);
    }
  }

  lemma EmptyLog(clock: nat, policy: Policy)
    ensures LogMatches(None, [], clock, policy)
  {}

  // ----- runs -----

  lemma StepKeepsInvariant(s: State, step: Step, policy: Policy)
    requires Invariant(s, policy) && Enabled(s, step) && policy.maximum > 0
    ensures Invariant(Apply(s, step, policy), policy)
  {
    hide Invariant, Finished, Reserved, Refresh, Clear;
    var t := s.(clock := step.now);
    LaterInvariant(s, step.now, policy);
    match step
    case Prune(now) => RefreshAllInvariant(t, t.table.order, policy);
    case Check(key, now) => RefreshInvariant(t, key, policy);
    case Attempt(id, key, now) => ReservedInvariant(t, id, key, policy);
    case Finish(id, failed, now) => FinishedInvariant(t, id, failed, policy);
    case Forgive(key, now) => ForgivenInvariant(t, key, policy);
  }

  const EMPTY := State(Table([], map[], 0), map[], map[], 0)

  lemma EmptyInvariant(policy: Policy)
    ensures Invariant(EMPTY, policy)
  {
    forall key ensures KeyInvariant(EMPTY, policy, key) {
      EmptyLog(0, policy);
      assert LiveOn(EMPTY.live, key) == {};
    }
  }

  /** The states of a run, one per step. */
  ghost predicate IsRun(states: seq<State>, steps: seq<Step>, policy: Policy) {
    && |states| == |steps| + 1 && states[0] == EMPTY
    && forall i :: 0 <= i < |steps| ==> Follows(states[i], steps[i], states[i + 1], policy)
  }

  ghost predicate Follows(s: State, step: Step, s': State, policy: Policy) {
    Enabled(s, step) && s' == Apply(s, step, policy)
  }

  lemma {:induction false} RunInvariant(states: seq<State>, steps: seq<Step>, policy: Policy, i: nat)
    requires IsRun(states, steps, policy) && i < |states| && policy.maximum > 0
    ensures Invariant(states[i], policy)
  {
    hide Invariant, Apply, Enabled;
    if i == 0 {
      EmptyInvariant(policy);
    } else {
      RunInvariant(states, steps, policy, i - 1);
      assert Follows(states[i - 1], steps[i - 1], states[i], policy);
      FollowsKeepsInvariant(states[i - 1], steps[i - 1], states[i], policy);
    }
  }

  lemma FollowsKeepsInvariant(s: State, step: Step, s': State, policy: Policy)
    requires Invariant(s, policy) && Follows(s, step, s', policy) && policy.maximum > 0
    ensures Invariant(s', policy)
  {
    StepKeepsInvariant(s, step, policy);
  }

  /** In every run a key never holds more than its maximum of failures and live attempts. */
  lemma AttemptsAreBounded(states: seq<State>, steps: seq<Step>, policy: Policy, i: nat, key: string)
    requires IsRun(states, steps, policy) && i < |states| && policy.maximum > 0 && key in states[i].table.records
    ensures var r := states[i].table.records[key];
            r.count + r.inFlight <= policy.maximum && r.inFlight == |LiveOn(states[i].live, key)|
  {
    RunInvariant(states, steps, policy, i);
    assert KeyInvariant(states[i], policy, key);
  }

  /** The record of a live reservation is never replaced, so a completion never takes the
      branch for replaced records. */
  lemma NeverReplaced(states: seq<State>, steps: seq<Step>, policy: Policy, i: nat, id: nat)
    requires IsRun(states, steps, policy) && i < |states| && policy.maximum > 0 && id in states[i].live
    ensures !Replaced(states[i].table, states[i].live[id].key, states[i].live[id].serial)
  {
    RunInvariant(states, steps, policy, i);
    assert HoldsRecord(states[i], id);
  }

  /** Between two clears or evictions of a key, no window of windowMs milliseconds holds more
      than twice the maximum of its failures. */
  lemma FailuresAreBounded(states: seq<State>, steps: seq<Step>, policy: Policy, i: nat, key: string, start: nat)
    requires IsRun(states, steps, policy) && i < |states| && policy.maximum > 0
    ensures |WithinWindow(LogOf(states[i].logs, key), start, policy)| <= 2 * policy.maximum
  {
    RunInvariant(states, steps, policy, i);
    assert KeyInvariant(states[i], policy, key);
    LogBound(RecordOf(states[i].table, key), LogOf(states[i].logs, key), states[i].clock, policy, start);
  }
}
