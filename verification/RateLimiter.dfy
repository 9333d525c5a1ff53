/** The rate limiter as the middleware runs it: Maps that are updated in place, and reservations
    that are completed once. */
module RateLimiter {
  import opened Wrappers
  import opened RateLimit
  import opened RateLimitRuns

  class FailureMap {
    var order: seq<string>
    var records: map<string, Record>
    var nextSerial: nat
    const policy: Policy

    constructor (policy: Policy)
      ensures Contents() == EMPTY.table && this.policy == policy
    {
      order, records, nextSerial := [], map[], 0;
      this.policy := policy;
    }

    function Contents(): Table
      reads this
    {
      Table(order, records, nextSerial)
    }

    /** map.set */
    method Put(key: string, record: Record)
      modifies this
      ensures Contents() == old(Contents()).Put(key, record)
    {
      if key !in records {
        order := order + [key];
      }
      records := records[key := record];
    }

    /** map.delete */
    method Delete(key: string)
      modifies this
      ensures Contents() == old(Contents()).Delete(key)
    {
      order := Without(order, key);
      records := records - {key};
    }

    method ActiveRecord(key: string, now: nat) returns (record: Option<Record>)
      modifies this
      ensures Contents() == Refresh(old(Contents()), key, now, policy)
      ensures record == RecordOf(Contents(), key)
    {
      if key !in records {
        return None;
      }
      var current := records[key];
      if now - current.startedAt < policy.windowMs {
        return Some(current);
      }
      if current.inFlight > 0 {
        Put(key, current.(count := 0, startedAt := now));
        return Some(records[key]);
      }
      Delete(key);
      return None;
    }

    method DeleteExpired(now: nat)
      modifies this
      ensures Contents() == RefreshAll(old(Contents()), old(order), now, policy)
    {
      var keys := order;
      var i := 0;
      while i < |keys|
        invariant 0 <= i <= |keys|
        invariant RefreshAll(Contents(), keys[i..], now, policy) == RefreshAll(old(Contents()), keys, now, policy)
      {
        assert keys[i..][1..] == keys[i + 1..];
        var _ := ActiveRecord(keys[i], now);
        i := i + 1;
      }
    }

    method EnforceMapLimit()
      modifies this
      ensures Contents() == Evict(old(Contents()), old(order), MAX_TRACKED_KEYS)
    {
      hide Without, Evict;
      var keys := order;
      var i := 0;
      while i < |keys| && |records| > MAX_TRACKED_KEYS
        invariant 0 <= i <= |keys|
        invariant Evict(Contents(), keys[i..], MAX_TRACKED_KEYS) == Evict(old(Contents()), keys, MAX_TRACKED_KEYS)
      {
        EvictNext(Contents(), keys, i);
        if keys[i] in records && records[keys[i]].inFlight == 0 {
          Delete(keys[i]);
        }
        i := i + 1;
      }
      EvictEnd(Contents(), keys, i);
    }

    method LimitState(key: string, now: nat) returns (blocked: bool, retrySeconds: nat)
      modifies this
      ensures Contents() == Refresh(old(Contents()), key, now, policy)
      ensures blocked <==> Blocked(Contents(), key, policy)
      ensures retrySeconds == if blocked then RetrySeconds(Contents(), key, now, policy) else 0
    {
      var record := ActiveRecord(key, now);
      if record.None? || record.value.count + record.value.inFlight < policy.maximum {
        return false, 0;
      }
      return true, RetrySeconds(Contents(), key, now, policy);
    }

    /** The identity of the record that now counts the attempt. */
    method ReserveAttempt(key: string, now: nat) returns (serial: nat)
      requires WellFormed(Contents())
      modifies this
      ensures Contents() == Reserve(old(Contents()), key, now, policy)
      ensures WellFormed(Contents()) && !Replaced(Contents(), key, serial)
    {
      hide WellFormed, Evict, Without;
      RefreshWellFormed(Contents(), key, now, policy);
      var record := ActiveRecord(key, now);
      OpenedWellFormed(Contents(), key, now);
      if record.None? {
        record := Some(Record(nextSerial, 0, 0, now));
        Put(key, record.value);
        nextSerial := nextSerial + 1;
      }
      assert Contents() == Opened(Refresh(old(Contents()), key, now, policy), key, now);
      hide Opened, Refresh;
      serial := record.value.serial;
      SameSerialWellFormed(Contents(), key, record.value.(inFlight := record.value.inFlight + 1));
      Put(key, record.value.(inFlight := record.value.inFlight + 1));
      EvictKeeps(Contents(), order, MAX_TRACKED_KEYS);
      EnforceMapLimit();
    }

    method RecordFailure(key: string, now: nat)
      modifies this
      ensures Contents() == RateLimit.RecordFailure(old(Contents()), key, now, policy)
    {
      hide Evict;
      var record := ActiveRecord(key, now);
      if record.None? {
        record := Some(Record(nextSerial, 0, 0, now));
        Put(key, record.value);
        nextSerial := nextSerial + 1;
      }
      Put(key, record.value.(count := record.value.count + 1));
      EnforceMapLimit();
    }

    method CompleteAttempt(key: string, serial: nat, failed: bool, now: nat)
      modifies this
      ensures Contents() == Complete(old(Contents()), key, serial, failed, now, policy)
    {
      if Replaced(Contents(), key, serial) {
        if failed {
          RecordFailure(key, now);
        }
        return;
      }
      var current := records[key];
      if now - current.startedAt >= policy.windowMs {
        current := current.(count := 0, startedAt := now);
      }
      current := current.(inFlight := if current.inFlight > 0 then current.inFlight - 1 else 0);
      if failed {
        current := current.(count := current.count + 1);
      }
      if current.count == 0 && current.inFlight == 0 {
        Delete(key);
      } else {
        Put(key, current);
      }
    }

    method ClearFailures(key: string)
      modifies this
      ensures Contents() == Clear(old(Contents()), key)
    {
      if key !in records {
        return;
      }
      if records[key].inFlight == 0 {
        Delete(key);
      } else {
        Put(key, records[key].(count := 0));
      }
    }
  }

  lemma EvictNext(t: Table, keys: seq<string>, i: nat)
    requires i < |keys| && |t.records| > MAX_TRACKED_KEYS
    ensures var idle := keys[i] in t.records && t.records[keys[i]].inFlight == 0;
            Evict(t, keys[i..], MAX_TRACKED_KEYS)
            == Evict(if idle then t.Delete(keys[i]) else t, keys[i + 1..], MAX_TRACKED_KEYS)
  {
    assert keys[i..][1..] == keys[i + 1..];
  }

  lemma EvictEnd(t: Table, keys: seq<string>, i: nat)
    requires i <= |keys| && (i == |keys| || |t.records| <= MAX_TRACKED_KEYS)
    ensures Evict(t, keys[i..], MAX_TRACKED_KEYS) == t
  {}

  /** One admitted attempt; it counts against an address and against an account. */
  class Reservation {
    var active: bool
    const address: Entry
    const account: Entry

    constructor (address: Entry, account: Entry)
      ensures active && this.address == address && this.account == account
    {
      active := true;
      this.address, this.account := address, account;
    }
  }

  /** Two maps per kind of attempt. */
  class AttemptLimiter {
    const addresses: FailureMap
    const accounts: FailureMap

    ghost predicate Valid()
      reads this, addresses, accounts
    {
      addresses != accounts && WellFormed(addresses.Contents()) && WellFormed(accounts.Contents())
    }

    constructor (addressPolicy: Policy, accountPolicy: Policy)
      ensures Valid() && fresh(addresses) && fresh(accounts)
      ensures addresses.Contents() == EMPTY.table && accounts.Contents() == EMPTY.table
      ensures addresses.policy == addressPolicy && accounts.policy == accountPolicy
    {
      addresses := new FailureMap(addressPolicy);
      accounts := new FailureMap(accountPolicy);
    }

    /** Both maps must have room; then both count the attempt. The delay is the longer one. */
    method ReserveAttempts(address: string, account: string, now: nat)
      returns (retrySeconds: nat, reservation: Reservation?)
      requires Valid()
      modifies addresses, accounts
      ensures Valid()
      ensures var a, b := Refresh(old(addresses.Contents()), address, now, addresses.policy),
                          Refresh(old(accounts.Contents()), account, now, accounts.policy);
              var blocked := Blocked(a, address, addresses.policy) || Blocked(b, account, accounts.policy);
              && (blocked <==> reservation == null)
              && (blocked ==> addresses.Contents() == a && accounts.Contents() == b)
              && (!blocked ==>
                    && addresses.Contents() == Reserve(a, address, now, addresses.policy)
                    && accounts.Contents() == Reserve(b, account, now, accounts.policy))
              && (Blocked(a, address, addresses.policy) ==>
                  retrySeconds >= RetrySeconds(a, address, now, addresses.policy))
              && (Blocked(b, account, accounts.policy) ==>
                  retrySeconds >= RetrySeconds(b, account, now, accounts.policy))
      ensures reservation != null ==>
                && fresh(reservation) && reservation.active
                && reservation.address.key == address && reservation.account.key == account
                && !Replaced(addresses.Contents(), address, reservation.address.serial)
                && !Replaced(accounts.Contents(), account, reservation.account.serial)
    {
      hide Reserve, WellFormed;
      RefreshWellFormed(addresses.Contents(), address, now, addresses.policy);
      RefreshWellFormed(accounts.Contents(), account, now, accounts.policy);
      var addressBlocked, addressRetry := addresses.LimitState(address, now);
      var accountBlocked, accountRetry := accounts.LimitState(account, now);
      retrySeconds := if accountRetry > addressRetry then accountRetry else addressRetry;
      if addressBlocked || accountBlocked {
        return retrySeconds, null;
      }
      var addressSerial := addresses.ReserveAttempt(address, now);
      var accountSerial := accounts.ReserveAttempt(account, now);
      reservation := new Reservation(Entry(address, addressSerial), Entry(account, accountSerial));
    }

    /** Only the first completion of a reservation counts. */
    method CompleteReservation(reservation: Reservation, failed: bool, now: nat) returns (completed: bool)
      modifies addresses, accounts, reservation`active
      requires addresses != accounts
      ensures completed == old(reservation.active) && !reservation.active
      ensures completed ==>
                && addresses.Contents() == Complete(old(addresses.Contents()), reservation.address.key,
                                                    reservation.address.serial, failed, now, addresses.policy)
                && accounts.Contents() == Complete(old(accounts.Contents()), reservation.account.key,
                                                   reservation.account.serial, failed, now, accounts.policy)
      ensures !completed ==>
                addresses.Contents() == old(addresses.Contents()) && accounts.Contents() == old(accounts.Contents())
    {
      hide Complete;
      if !reservation.active {
        return false;
      }
      reservation.active := false;
      addresses.CompleteAttempt(reservation.address.key, reservation.address.serial, failed, now);
      accounts.CompleteAttempt(reservation.account.key, reservation.account.serial, failed, now);
      return true;
    }
  }
}
