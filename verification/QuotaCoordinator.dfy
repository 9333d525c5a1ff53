/** The quota coordinator and the commit transaction as they run: Maps and totals updated in
    place beside the files table. */
module QuotaCoordinator {
  import opened Wrappers
  import opened Sorting
  import opened Totals
  import opened QuotaLimits
  import opened UploadQuota

  /** COUNT(*) and SUM(size); also the accumulating loop over the reservations. */
  method SumUsage(table: map<nat, Charge>, scope: Scope) returns (u: Usage)
    ensures u == UsageOf(table, scope)
  {
    hide Total;
    var count, size := 0, 0;
    var rest := table;
    while rest != map[]
      invariant rest.Keys <= table.Keys
      invariant count + Total(rest, CountIn(scope)) == Total(table, CountIn(scope))
      invariant size + Total(rest, BytesIn(scope)) == Total(table, BytesIn(scope))
      decreases |rest|
    {
      var id :| id in rest;
      TotalWithout(rest, CountIn(scope), id);
      TotalWithout(rest, BytesIn(scope), id);
      if InScope(rest[id], scope) {
        count := count + 1;
        size := size + rest[id].size;
      }
      rest := rest - {id};
    }
    NothingLeft(scope);
    u := Usage(count, size);
  }

  lemma NothingLeft(scope: Scope)
    ensures Total(map[], CountIn(scope)) == 0 && Total(map[], BytesIn(scope)) == 0
  {}

  class Coordinator {
    var files: map<nat, Charge>
    var nextFile: nat
    var reservations: map<nat, Charge>
    var repositoryUsage: map<nat, Usage>
    var totalUsage: Usage
    const limitsOf: nat -> Limits

    ghost function State(): System
      reads this
    {
      System(files, nextFile, reservations, repositoryUsage, totalUsage)
    }

    /** What every method needs; it holds also after SMB changes of the files table. */
    ghost predicate Usable()
      reads this
    {
      && FixedLimits(limitsOf) && (forall id :: id in files ==> id < nextFile)
      && (forall id :: id in reservations ==> reservations[id].repository in repositoryUsage)
    }

    /** What holds as long as only uploads and deletions change the table. */
    ghost predicate Valid()
      reads this
    {
      FixedLimits(limitsOf) && Invariant(State(), limitsOf)
    }

    constructor (files: map<nat, Charge>, nextFile: nat, limitsOf: nat -> Limits)
      requires FixedLimits(limitsOf) && forall id :: id in files ==> id < nextFile
      requires forall scope :: Fits(limitsOf, scope, UsageOf(files, scope))
      ensures Valid() && State() == System(files, nextFile, map[], map[], Usage(0, 0)) && this.limitsOf == limitsOf
    {
      this.files, this.nextFile := files, nextFile;
      reservations, repositoryUsage, totalUsage := map[], map[], Usage(0, 0);
      this.limitsOf := limitsOf;
      new;
      StartInvariant(State(), limitsOf);
    }

    method RefreshUsage(r: nat)
      modifies `repositoryUsage, `totalUsage
      ensures State() == Refreshed(old(State()), r)
    {
      hide UsageOf;
      var here := SumUsage(files, InRepository(r));
      var everywhere := SumUsage(files, Server);
      repositoryUsage := repositoryUsage[r := here];
      totalUsage := everywhere;
    }

    method ActiveUsage(r: nat) returns (here: Usage, everywhere: Usage)
      ensures here == UsageOf(reservations, InRepository(r)) && everywhere == UsageOf(reservations, Server)
    {
      here := SumUsage(reservations, InRepository(r));
      everywhere := SumUsage(reservations, Server);
    }

    /** id is a fresh random identifier. */
    method Reserve(r: nat, id: nat) returns (broken: Option<Quota>)
      requires Usable() && id !in reservations
      modifies this
      ensures Usable() && (old(Valid()) ==> Valid())
      ensures broken == ReserveCheck(old(State()), r, limitsOf(r))
      ensures Follows(old(State()), ReserveEvent(id, r), State(), limitsOf)
    {
      hide UsageOf, Invariant;
      ghost var before := State();
      RefreshUsage(r);
      var here, everywhere := ActiveUsage(r);
      var limits := limitsOf(r);
      if limits.repositoryCount.Exceeded(repositoryUsage[r].count + here.count + 1) {
        broken := Some(REPOSITORY_FILE_COUNT);
      } else if limits.totalCount.Exceeded(totalUsage.count + everywhere.count + 1) {
        broken := Some(TOTAL_FILE_COUNT);
      } else {
        broken := None;
        reservations := reservations[id := Charge(r, 0)];
      }
      if Invariant(before, limitsOf) {
        EventKeepsInvariant(before, ReserveEvent(id, r), State(), limitsOf);
      }
    }

    method Grow(id: nat, bytes: nat) returns (broken: Option<Quota>)
      requires Usable() && id in reservations
      modifies this
      ensures Usable() && (old(Valid()) ==> Valid())
      ensures Follows(old(State()), GrowEvent(id, bytes), State(), limitsOf)
      ensures broken == GrowCheck(old(State()), id, bytes, limitsOf(old(reservations)[id].repository))
    {
      hide UsageOf, Fits;
      ghost var before := State();
      var c := reservations[id];
      var limits := limitsOf(c.repository);
      var stored := repositoryUsage[c.repository];
      var here, everywhere := ActiveUsage(c.repository);
      if limits.fileSize.Exceeded(c.size + bytes) {
        broken := Some(FILE_SIZE);
      } else if limits.repositoryBytes.Exceeded(stored.size + here.size + bytes) {
        broken := Some(REPOSITORY_STORAGE);
      } else if limits.totalBytes.Exceeded(totalUsage.size + everywhere.size + bytes) {
        broken := Some(TOTAL_STORAGE);
      } else {
        broken := None;
        reservations := reservations[id := c.(size := c.size + bytes)];
      }
      if Invariant(before, limitsOf) {
        EventKeepsInvariant(before, GrowEvent(id, bytes), State(), limitsOf);
      }
    }

    method Release(id: nat)
      requires Usable()
      modifies this
      ensures Usable() && (old(Valid()) ==> Valid())
      ensures Follows(old(State()), ReleaseEvent(id), State(), limitsOf)
    {
      hide Invariant;
      ghost var before := State();
      reservations := reservations - {id};
      if Invariant(before, limitsOf) {
        EventKeepsInvariant(before, ReleaseEvent(id), State(), limitsOf);
      }
    }

    method DeleteFile(file: nat)
      requires Usable()
      modifies this
      ensures Usable() && (old(Valid()) ==> Valid())
      ensures Follows(old(State()), DeleteEvent(file), State(), limitsOf)
    {
      hide Invariant;
      ghost var before := State();
      files := files - {file};
      if Invariant(before, limitsOf) {
        EventKeepsInvariant(before, DeleteEvent(file), State(), limitsOf);
      }
    }

    /** enforceUploadQuotas */
    method EnforceUploadQuotas(r: nat, batch: seq<nat>) returns (broken: Option<Quota>)
      requires forall id :: id in batch ==> id in reservations
      ensures broken == CommitCheck(State(), r, batch, limitsOf(r))
    {
      hide UsageOf;
      var here := SumUsage(files, InRepository(r));
      var everywhere := SumUsage(files, Server);
      broken := QuotaLimits.EnforceUploadQuotas(limitsOf(r), here, everywhere, BatchUsage(reservations, batch));
    }

    /** The commit of one request's uploads: the re-check, a row per file, then the end of their
        reservations. A rejected request only loses its reservations; without SMB changes none is. */
    method CommitUploads(r: nat, batch: seq<nat>) returns (broken: Option<Quota>)
      requires Usable() && IsBatch(State(), r, batch)
      modifies this
      ensures Usable() && (old(Valid()) ==> Valid() && broken.None?)
      ensures broken == CommitCheck(old(State()), r, batch, limitsOf(r))
      ensures Follows(old(State()), CommitEvent(r, batch), State(), limitsOf)
      ensures State() == if broken.None? then Refreshed(StoreAll(old(State()), batch), r)
                         else old(State()).(reservations := old(reservations) - set id | id in batch)
    {
      hide UsageOf, Invariant, CommitCheck;
      ghost var before := State();
      broken := EnforceUploadQuotas(r, batch);
      if broken.Some? {
        ReleaseAll(batch);
      } else {
        StoreAllFrame(before, batch, r, Server);
        InsertRows(batch);
        RefreshUsage(r);
      }
      if Invariant(before, limitsOf) {
        CommitNeverRejected(before, r, batch, limitsOf);
        EventKeepsInvariant(before, CommitEvent(r, batch), State(), limitsOf);
      }
    }

    /** The clean-up of a rejected request. */
    method ReleaseAll(batch: seq<nat>)
      modifies `reservations
      ensures reservations == old(reservations) - set id | id in batch
    {
      var i := 0;
      while i < |batch|
        invariant 0 <= i <= |batch|
        invariant reservations == old(reservations) - set id | id in batch[..i]
      {
        assert batch[..i + 1] == batch[..i] + [batch[i]];
        reservations := reservations - {batch[i]};
        i := i + 1;
      }
      assert batch[..i] == batch;
    }

    method InsertRows(batch: seq<nat>)
      requires Distinct(batch) && forall id :: id in batch ==> id in reservations
      modifies `files, `nextFile, `reservations
      ensures State() == StoreAll(old(State()), batch)
    {
      var i := 0;
      while i < |batch|
        invariant 0 <= i <= |batch|
        invariant forall k :: i <= k < |batch| ==> batch[k] in reservations
        invariant StoreAll(State(), batch[i..]) == StoreAll(old(State()), batch)
      {
        assert batch[i..][1..] == batch[i + 1..];
        files := files[nextFile := reservations[batch[i]]];
        nextFile := nextFile + 1;
        reservations := reservations - {batch[i]};
        i := i + 1;
      }
    }
  }

  /** One upload as it streams in: a chunk passes only after its bytes were reserved, so the size
      that is stored later is the size that was reserved. */
  class IncomingFile {
    const coordinator: Coordinator
    const reservation: nat
    var size: nat

    ghost predicate Valid()
      reads this, coordinator
    {
      && coordinator.Usable() && reservation in coordinator.reservations
      && coordinator.reservations[reservation].size == size
    }

    constructor (coordinator: Coordinator, reservation: nat)
      requires coordinator.Usable() && reservation in coordinator.reservations
      requires coordinator.reservations[reservation].size == 0
      ensures Valid() && size == 0 && this.coordinator == coordinator && this.reservation == reservation
    {
      this.coordinator, this.reservation, size := coordinator, reservation, 0;
    }

    method OnChunk(length: nat) returns (broken: Option<Quota>)
      requires Valid()
      modifies this, coordinator
      ensures Valid()
      ensures size == old(size) + if broken.None? then length else 0
    {
      broken := coordinator.Grow(reservation, length);
      if broken.None? {
        size := size + length;
      }
    }
  }

  lemma StartInvariant(s: System, limitsOf: nat -> Limits)
    requires s.reservations == map[] && s.repositoryUsage == map[]
    requires forall scope :: Fits(limitsOf, scope, UsageOf(s.files, scope))
    requires forall id :: id in s.files ==> id < s.nextFile
    ensures Invariant(s, limitsOf)
  {
    hide Fits, UsageOf;
    forall scope ensures Fits(limitsOf, scope, Charged(s, scope)) {
      EmptyUsage(scope);
      assert Charged(s, scope) == UsageOf(s.files, scope);
    }
  }
}
