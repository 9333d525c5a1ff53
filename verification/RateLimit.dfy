/** Fixed-window failure counters with reservations in flight (src/middleware/login-rate-limit.js). */
module RateLimit {
  import opened Wrappers
  import opened Sorting

  const MAX_TRACKED_KEYS := 20_000

  /** serial stands for the identity of the record object. */
  datatype Record = Record(serial: nat, count: nat, inFlight: nat, startedAt: nat)

  /** A Map: the keys in insertion order, and their records. */
  datatype Table = Table(order: seq<string>, records: map<string, Record>, nextSerial: nat) {
    function Put(key: string, record: Record): Table {
      Table(if key in records then order else order + [key], records[key := record], nextSerial)
    }

    function Delete(key: string): Table {
      Table(Without(order, key), records - {key}, nextSerial)
    }
  }

  function Without(order: seq<string>, key: string): (r: seq<string>)
    ensures forall k :: k in r <==> k in order && k != key
  {
    if order == [] then []
    else (if order[0] == key then [] else [order[0]]) + Without(order[1..], key)
  }

  /** One kind of attempt, counted per key. */
  datatype Policy = Policy(windowMs: nat, maximum: nat)

  // ----- operations on one map -----

  /** activeRecord: an expired record restarts its window while attempts are in flight, and
      is dropped otherwise. */
  function Refresh(t: Table, key: string, now: nat, policy: Policy): Table {
    if key !in t.records || now - t.records[key].startedAt < policy.windowMs then t
    else if t.records[key].inFlight > 0 then t.Put(key, t.records[key].(count := 0, startedAt := now))
    else t.Delete(key)
  }

  function RefreshAll(t: Table, keys: seq<string>, now: nat, policy: Policy): Table
    decreases |keys|
  {
    if keys == [] then t else RefreshAll(Refresh(t, keys[0], now, policy), keys[1..], now, policy)
  }

  /** enforceMapLimit: idle records go, oldest first, until the map is small enough. */
  function Evict(t: Table, keys: seq<string>, maximumKeys: nat): Table
    decreases |keys|
  {
    if keys == [] || |t.records| <= maximumKeys then t
    else
      Evict(if keys[0] in t.records && t.records[keys[0]].inFlight == 0 then t.Delete(keys[0]) else t,
            keys[1..], maximumKeys)
  }

  predicate Blocked(t: Table, key: string, policy: Policy) {
    key in t.records && t.records[key].count + t.records[key].inFlight >= policy.maximum
  }

  function RetrySeconds(t: Table, key: string, now: nat, policy: Policy): nat
    requires key in t.records
  {
    var remaining := policy.windowMs - (now - t.records[key].startedAt);
    var seconds := (remaining + 999) / 1000;
    if seconds > 1 then seconds else 1
  }

  /** The record of a key after activeRecord and, where there is none, map.set. */
  function Opened(t: Table, key: string, now: nat): Table {
    if key in t.records then t
    else t.Put(key, Record(t.nextSerial, 0, 0, now)).(nextSerial := t.nextSerial + 1)
  }

  function Take(t: Table, key: string): Table
    requires key in t.records
  {
    t.Put(key, t.records[key].(inFlight := t.records[key].inFlight + 1))
  }

  function Reserve(t: Table, key: string, now: nat, policy: Policy): Table {
    var taken := Take(Opened(Refresh(t, key, now, policy), key, now), key);
    Evict(taken, taken.order, MAX_TRACKED_KEYS)
  }

  function RecordFailure(t: Table, key: string, now: nat, policy: Policy): Table {
    var present := Opened(Refresh(t, key, now, policy), key, now);
    var record := present.records[key];
    var counted := present.Put(key, record.(count := record.count + 1));
    Evict(counted, counted.order, MAX_TRACKED_KEYS)
  }

  predicate Replaced(t: Table, key: string, serial: nat) {
    key !in t.records || t.records[key].serial != serial
  }

  /** completeReservation for one entry. */
  function Complete(t: Table, key: string, serial: nat, failed: bool, now: nat, policy: Policy): Table {
    if Replaced(t, key, serial) then
      if failed then RecordFailure(t, key, now, policy) else t
    else
      var current := t.records[key];
      var windowed := if now - current.startedAt >= policy.windowMs then current.(count := 0, startedAt := now)
          else current;
      var landed := windowed.(inFlight := if windowed.inFlight > 0 then windowed.inFlight - 1 else 0,
                              count := windowed.count + if failed then 1 else 0);
      if landed.count == 0 && landed.inFlight == 0 then t.Delete(key) else t.Put(key, landed)
  }

  function Clear(t: Table, key: string): Table {
    if key !in t.records then t
    else if t.records[key].inFlight == 0 then t.Delete(key)
    else t.Put(key, t.records[key].(count := 0))
  }

  /** After the announced delay the window has run out, and not a whole second earlier. */
  lemma RetrySecondsSuffice(t: Table, key: string, now: nat, policy: Policy)
    requires key in t.records && t.records[key].startedAt <= now < t.records[key].startedAt + policy.windowMs
    ensures var end, seconds := t.records[key].startedAt + policy.windowMs, RetrySeconds(t, key, now, policy);
            end <= now + 1000 * seconds && (seconds > 1 ==> now + 1000 * (seconds - 1) < end)
  {}

  // ----- what the operations keep -----

  /** The keys in insertion order, once each, and no two records with one identity. */
  ghost predicate WellFormed(t: Table) {
    && (forall key :: key in t.order <==> key in t.records)
    && Distinct(t.order)
    && (forall key :: key in t.records ==> t.records[key].serial < t.nextSerial)
    && (forall a, b :: a in t.records && b in t.records && t.records[a].serial == t.records[b].serial ==> a == b)
  }

  lemma {:induction false} WithoutDistinct(order: seq<string>, key: string)
    requires Distinct(order)
    ensures Distinct(Without(order, key))
  {
    if order != [] {
      WithoutDistinct(order[1..], key);
      assert order[0] !in order[1..];
      assert order[0] !in Without(order[1..], key);
    }
  }

  lemma PutWellFormed(t: Table, key: string, record: Record)
    requires WellFormed(t) && record.serial < t.nextSerial
    requires forall other :: other in t.records && other != key ==> t.records[other].serial != record.serial
    ensures WellFormed(t.Put(key, record))
  {}

  lemma DeleteWellFormed(t: Table, key: string)
    requires WellFormed(t)
    ensures WellFormed(t.Delete(key))
  {
    WithoutDistinct(t.order, key);
  }

  lemma RefreshWellFormed(t: Table, key: string, now: nat, policy: Policy)
    requires WellFormed(t)
    ensures WellFormed(Refresh(t, key, now, policy))
  {
    hide WellFormed;
    if key in t.records {
      DeleteWellFormed(t, key);
      SameSerialWellFormed(t, key, t.records[key].(count := 0, startedAt := now));
    }
  }

  lemma SameSerialWellFormed(t: Table, key: string, record: Record)
    requires WellFormed(t) && key in t.records && record.serial == t.records[key].serial
    ensures WellFormed(t.Put(key, record))
  {
    PutWellFormed(t, key, record);
  }

  lemma OpenedWellFormed(t: Table, key: string, now: nat)
    requires WellFormed(t)
    ensures WellFormed(Opened(t, key, now))
  {
    if key !in t.records {
      PutWellFormed(t.(nextSerial := t.nextSerial + 1), key, Record(t.nextSerial, 0, 0, now));
    }
  }

  /** Eviction drops idle records only and changes no other. */
  lemma {:induction false} EvictKeeps(t: Table, keys: seq<string>, maximumKeys: nat)
    requires WellFormed(t)
    ensures var r := Evict(t, keys, maximumKeys);
            && WellFormed(r) && r.nextSerial == t.nextSerial
            && (forall key :: key in r.records ==> key in t.records && r.records[key] == t.records[key])
            && (forall key :: key in t.records && t.records[key].inFlight > 0 ==> key in r.records)
            && (|t.records| <= maximumKeys ==> r == t)
    decreases |keys|
  {
    hide WellFormed;
    if keys != [] && |t.records| > maximumKeys {
      var next := if keys[0] in t.records && t.records[keys[0]].inFlight == 0 then t.Delete(keys[0]) else t;
      DeleteWellFormed(t, keys[0]);
      EvictKeeps(next, keys[1..], maximumKeys);
    }
  }

  /** Beyond the limit only records with attempts in flight are left. */
  lemma {:induction false} EvictBounds(t: Table, keys: seq<string>, maximumKeys: nat)
    requires forall key :: key in t.records && t.records[key].inFlight == 0 ==> key in keys
    ensures var r := Evict(t, keys, maximumKeys);
            |r.records| <= maximumKeys || forall key :: key in r.records ==> r.records[key].inFlight > 0
    decreases |keys|
  {
    if keys != [] && |t.records| > maximumKeys {
      var next := if keys[0] in t.records && t.records[keys[0]].inFlight == 0 then t.Delete(keys[0]) else t;
      forall key | key in next.records && next.records[key].inFlight == 0 ensures key in keys[1..] {
        assert key in keys && key != keys[0];
      }
      EvictBounds(next, keys[1..], maximumKeys);
    }
  }

  // ----- one key: its record, the failures counted on it, and the clock -----

  /** f holds the times of the failures recorded on a key since it was last cleared or evicted.
      Those of the current window are its last count entries. */
  ghost predicate LogMatches(record: Option<Record>, f: seq<nat>, clock: nat, policy: Policy) {
    && (forall j :: 0 <= j < |f| ==> f[j] <= clock)
    && (forall i, j :: 0 <= i <= j < |f| ==> f[i] <= f[j])
    && (forall i, j :: 0 <= i && i + 2 * policy.maximum <= j < |f| ==> f[i] + policy.windowMs <= f[j])
    && match record
       case None => WindowMayOpen(f, clock, policy)
       case Some(r) =>
         && r.count <= policy.maximum && r.count <= |f| && r.startedAt <= clock
         && (forall j :: 0 <= j < |f| - r.count ==> f[j] <= r.startedAt)
         && (forall j :: 0 <= j < |f| - r.count - policy.maximum ==> f[j] + policy.windowMs <= r.startedAt)
  }

  /** All but the last maximum failures lie a whole window back. */
  ghost predicate WindowMayOpen(f: seq<nat>, now: nat, policy: Policy) {
    forall j :: 0 <= j < |f| - policy.maximum ==> f[j] + policy.windowMs <= now
  }

  lemma LogLater(record: Option<Record>, f: seq<nat>, clock: nat, now: nat, policy: Policy)
    requires LogMatches(record, f, clock, policy) && clock <= now
    ensures LogMatches(record, f, now, policy)
  {}

  /** A window that has run out may be restarted, or its record dropped. */
  lemma LogExpired(r: Record, f: seq<nat>, now: nat, policy: Policy)
    requires LogMatches(Some(r), f, now, policy) && now - r.startedAt >= policy.windowMs
    ensures LogMatches(Some(r.(count := 0, startedAt := now)), f, now, policy)
    ensures LogMatches(None, f, now, policy)
  {}

  lemma LogOpened(f: seq<nat>, now: nat, policy: Policy, serial: nat)
    requires LogMatches(None, f, now, policy)
    ensures LogMatches(Some(Record(serial, 0, 0, now)), f, now, policy)
  {}

  lemma LogEmptied(r: Record, f: seq<nat>, now: nat, policy: Policy)
    requires LogMatches(Some(r), f, now, policy) && r.count == 0
    ensures LogMatches(None, f, now, policy)
  {}

  lemma LogFailure(r: Record, f: seq<nat>, now: nat, policy: Policy)
    requires LogMatches(Some(r), f, now, policy) && r.count < policy.maximum
    ensures LogMatches(Some(r.(count := r.count + 1)), f + [now], now, policy)
  {
    var g := f + [now];
    forall i, j | 0 <= i && i + 2 * policy.maximum <= j < |g| ensures g[i] + policy.windowMs <= g[j] {
      if j == |f| {
        assert i < |f| - r.count - policy.maximum;
      }
    }
  }

  lemma LogInFlight(r: Record, f: seq<nat>, now: nat, policy: Policy, inFlight: nat)
    requires LogMatches(Some(r), f, now, policy)
    ensures LogMatches(Some(r.(inFlight := inFlight)), f, now, policy)
  {}

  lemma LogForgotten(r: Record, now: nat, policy: Policy)
    requires r.startedAt <= now
    ensures LogMatches(Some(r.(count := 0)), [], now, policy)
    ensures LogMatches(None, [], now, policy)
  {}

  /** The failures of a log within [start, start + windowMs). */
  ghost function WithinWindow(f: seq<nat>, start: nat, policy: Policy): set<nat> {
    set i: nat | i < |f| && start <= f[i] < start + policy.windowMs
  }

  lemma {:induction false} RangeSize(s: set<nat>, low: nat, high: nat)
    requires low <= high && forall i :: i in s ==> low <= i < high
    ensures |s| <= high - low
    decreases high - low
  {
    if s != {} {
      RangeSize(s - {high - 1}, low, high - 1);
    }
  }

  /** Fewer than one more than twice the maximum in any window, wherever it starts. */
  lemma LogBound(record: Option<Record>, f: seq<nat>, clock: nat, policy: Policy, start: nat)
    requires LogMatches(record, f, clock, policy)
    ensures |WithinWindow(f, start, policy)| <= 2 * policy.maximum
  {
    var s := WithinWindow(f, start, policy);
    if s != {} {
      var low := Least(s);
      forall i | i in s ensures low <= i < low + 2 * policy.maximum {}
      RangeSize(s, low, low + 2 * policy.maximum);
    }
  }

  lemma {:induction false} Least(s: set<nat>) returns (low: nat)
    requires s != {}
    ensures low in s && forall i :: i in s ==> low <= i
  {
    var x :| x in s;
    if s == {x} {
      low := x;
    } else {
      var rest := Least(s - {x});
      assert s == (s - {x}) + {x};
      low := if x < rest then x else rest;
    }
  }
}
