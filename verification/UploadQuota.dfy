/** Uploads in progress, their reservations, and the files table (src/upload-storage.js and the
    commit transaction of src/routes/repositories.js). */
module UploadQuota {
  import opened Wrappers
  import opened Totals
  import opened Sorting
  import opened QuotaLimits

  /** A stored file, or the bytes reserved for one. */
  datatype Charge = Charge(repository: nat, size: nat)

  datatype Scope = Server | InRepository(id: nat)

  predicate InScope(c: Charge, scope: Scope) {
    scope.Server? || c.repository == scope.id
  }

  function BytesIn(scope: Scope): Charge -> nat {
    (c: Charge) => if InScope(c, scope) then c.size else 0
  }

  function CountIn(scope: Scope): Charge -> nat {
    (c: Charge) => if InScope(c, scope) then 1 else 0
  }

  /** COUNT(*) and SUM(size) over the rows in scope. */
  ghost function UsageOf(table: map<nat, Charge>, scope: Scope): Usage {
    Usage(Total(table, CountIn(scope)), Total(table, BytesIn(scope)))
  }

  predicate AtMostUsage(a: Usage, b: Usage) {
    a.count <= b.count && a.size <= b.size
  }

  function Plus(a: Usage, b: Usage): Usage {
    Usage(a.count + b.count, a.size + b.size)
  }

  function ChargeUsage(c: Charge, scope: Scope): Usage {
    if InScope(c, scope) then Usage(1, c.size) else Usage(0, 0)
  }

  /** The limits of every repository; those of the server are the same wherever they are read. */
  ghost predicate FixedLimits(limitsOf: nat -> Limits) {
    forall a, b :: limitsOf(a).totalBytes == limitsOf(b).totalBytes && limitsOf(a).totalCount == limitsOf(b).totalCount
  }

  predicate Allows(limits: Limits, scope: Scope, u: Usage) {
    match scope
    case Server => !limits.totalBytes.Exceeded(u.size) && !limits.totalCount.Exceeded(u.count)
    case InRepository(_) => !limits.repositoryBytes.Exceeded(u.size) && !limits.repositoryCount.Exceeded(u.count)
  }

  ghost predicate Fits(limitsOf: nat -> Limits, scope: Scope, u: Usage) {
    match scope
    case Server => forall r :: Allows(limitsOf(r), Server, u)
    case InRepository(r) => Allows(limitsOf(r), scope, u)
  }

  // ----- usage of a changing table -----

  lemma EmptyUsage(scope: Scope)
    ensures UsageOf(map[], scope) == Usage(0, 0)
  {}

  lemma UsageInsert(table: map<nat, Charge>, scope: Scope, id: nat, c: Charge)
    requires id !in table
    ensures UsageOf(table[id := c], scope) == Plus(UsageOf(table, scope), ChargeUsage(c, scope))
  {
    hide Total;
    TotalInsert(table, CountIn(scope), id, c);
    TotalInsert(table, BytesIn(scope), id, c);
  }

  lemma UsageWithout(table: map<nat, Charge>, scope: Scope, id: nat)
    requires id in table
    ensures UsageOf(table, scope) == Plus(UsageOf(table - {id}, scope), ChargeUsage(table[id], scope))
  {
    hide Total;
    TotalWithout(table, CountIn(scope), id);
    TotalWithout(table, BytesIn(scope), id);
  }

  lemma UsageResize(table: map<nat, Charge>, scope: Scope, id: nat, size: nat)
    requires id in table
    ensures var u, v := UsageOf(table, scope), UsageOf(table[id := table[id].(size := size)], scope);
            && v.count == u.count
            && v.size + ChargeUsage(table[id], scope).size == u.size + if InScope(table[id], scope) then size else 0
  {
    hide Total;
    TotalUpdate(table, CountIn(scope), id, table[id].(size := size));
    TotalUpdate(table, BytesIn(scope), id, table[id].(size := size));
  }

  lemma UsageSubset(small: map<nat, Charge>, large: map<nat, Charge>, scope: Scope)
    requires small.Keys <= large.Keys && forall id :: id in small ==> small[id] == large[id]
    ensures AtMostUsage(UsageOf(small, scope), UsageOf(large, scope))
  {
    hide Total;
    TotalSubset(small, large, CountIn(scope));
    TotalSubset(small, large, BytesIn(scope));
  }

  // ----- the system -----

  /** The files table with the next unused row id, and the coordinator's memory. */
  datatype System = System(
    files: map<nat, Charge>, nextFile: nat,
    reservations: map<nat, Charge>, repositoryUsage: map<nat, Usage>, totalUsage: Usage)

  ghost function Refreshed(s: System, r: nat): System {
    s.(repositoryUsage := s.repositoryUsage[r := UsageOf(s.files, InRepository(r))],
       totalUsage := UsageOf(s.files, Server))
  }

  /** reserve: one more file must fit beside the stored and the reserved ones. */
  ghost function ReserveCheck(s: System, r: nat, limits: Limits): Option<Quota> {
    var stored, active := UsageOf(s.files, InRepository(r)), UsageOf(s.reservations, InRepository(r));
    if limits.repositoryCount.Exceeded(stored.count + active.count + 1) then Some(REPOSITORY_FILE_COUNT)
    else if limits.totalCount.Exceeded(UsageOf(s.files, Server).count + UsageOf(s.reservations, Server).count + 1) then
      Some(TOTAL_FILE_COUNT)
    else None
  }

  /** grow: the additional bytes must fit beside the usage as it was last read. */
  ghost function GrowCheck(s: System, id: nat, bytes: nat, limits: Limits): Option<Quota>
    requires id in s.reservations && s.reservations[id].repository in s.repositoryUsage
  {
    var c := s.reservations[id];
    if limits.fileSize.Exceeded(c.size + bytes) then Some(FILE_SIZE)
    else if limits.repositoryBytes.Exceeded(
              s.repositoryUsage[c.repository].size + UsageOf(s.reservations, InRepository(c.repository)).size
                  + bytes) then
      Some(REPOSITORY_STORAGE)
    else if limits.totalBytes.Exceeded(s.totalUsage.size + UsageOf(s.reservations, Server).size + bytes) then
      Some(TOTAL_STORAGE)
    else None
  }

  /** One uploaded file becomes a row; its reservation ends. */
  function Store(s: System, id: nat): System
    requires id in s.reservations
  {
    s.(files := s.files[s.nextFile := s.reservations[id]], nextFile := s.nextFile + 1,
       reservations := s.reservations - {id})
  }

  function StoreAll(s: System, batch: seq<nat>): System
    requires Distinct(batch) && forall id :: id in batch ==> id in s.reservations
    decreases |batch|
  {
    if batch == [] then s else StoreAll(Store(s, batch[0]), batch[1..])
  }

  function BatchUsage(reservations: map<nat, Charge>, batch: seq<nat>): Usage
    requires forall id :: id in batch ==> id in reservations
  {
    if batch == [] then Usage(0, 0)
    else Plus(Usage(1, reservations[batch[0]].size), BatchUsage(reservations, batch[1..]))
  }

  /** The re-check of the commit transaction. */
  ghost function CommitCheck(s: System, r: nat, batch: seq<nat>, limits: Limits): Option<Quota>
    requires forall id :: id in batch ==> id in s.reservations
  {
    EnforceUploadQuotas(limits, UsageOf(s.files, InRepository(r)), UsageOf(s.files, Server),
                        BatchUsage(s.reservations, batch))
  }

  /** The uploads of one request: distinct live reservations of its repository. */
  ghost predicate IsBatch(s: System, r: nat, batch: seq<nat>) {
    batch != [] && Distinct(batch) && forall id :: id in batch ==>
        id in s.reservations && s.reservations[id].repository == r
  }

  datatype Event =
    | ReserveEvent(id: nat, repository: nat)
    | GrowEvent(id: nat, bytes: nat)
    | ReleaseEvent(id: nat)
    | CommitEvent(repository: nat, batch: seq<nat>)
    | DeleteEvent(file: nat)

  /** What one event does; a refused one changes at most the cached usage. */
  ghost predicate Follows(s: System, e: Event, s': System, limitsOf: nat -> Limits) {
    match e
    case ReserveEvent(id, r) =>
      id !in s.reservations &&
      var t := Refreshed(s, r);
      s' == if ReserveCheck(s, r, limitsOf(r)).Some? then t else t.(reservations := t.reservations[id := Charge(r, 0)])
    case GrowEvent(id, bytes) =>
      && id in s.reservations && s.reservations[id].repository in s.repositoryUsage
      && var c := s.reservations[id];
         s' == if GrowCheck(s, id, bytes, limitsOf(c.repository)).Some? then s
               else s.(reservations := s.reservations[id := c.(size := c.size + bytes)])
    case ReleaseEvent(id) => s' == s.(reservations := s.reservations - {id})
    case CommitEvent(r, batch) =>
      && IsBatch(s, r, batch)
      && if CommitCheck(s, r, batch, limitsOf(r)).Some?
         then s' == s.(reservations := s.reservations - set id | id in batch)
         else s' == Refreshed(StoreAll(s, batch), r)
    case DeleteEvent(file) => s' == s.(files := s.files - {file})
  }

  // ----- the invariant -----

  ghost function Charged(s: System, scope: Scope): Usage {
    Plus(UsageOf(s.files, scope), UsageOf(s.reservations, scope))
  }

  /** What is cached never falls short of the table. */
  ghost predicate CacheCovers(s: System) {
    && (forall r :: r in s.repositoryUsage ==> AtMostUsage(UsageOf(s.files, InRepository(r)), s.repositoryUsage[r]))
    && (s.repositoryUsage != map[] ==> AtMostUsage(UsageOf(s.files, Server), s.totalUsage))
    && (forall id :: id in s.reservations ==> s.reservations[id].repository in s.repositoryUsage)
  }

  /** Stored and reserved together respect every limit. */
  ghost predicate ChargesFit(s: System, limitsOf: nat -> Limits) {
    forall scope :: Fits(limitsOf, scope, Charged(s, scope))
  }

  ghost predicate Invariant(s: System, limitsOf: nat -> Limits) {
    && ChargesFit(s, limitsOf) && CacheCovers(s)
    && (forall id :: id in s.files ==> id < s.nextFile)
  }

  lemma FitsLess(limitsOf: nat -> Limits, scope: Scope, u: Usage, v: Usage)
    requires Fits(limitsOf, scope, v) && AtMostUsage(u, v)
    ensures Fits(limitsOf, scope, u)
  {
    if scope.Server? {
      forall r ensures Allows(limitsOf(r), Server, u) {
        assert Allows(limitsOf(r), Server, v);
      }
    }
  }

  /** Fewer rows and fewer reserved bytes leave the invariant alone. */
  lemma ShrinkingKeeps(s: System, s': System, limitsOf: nat -> Limits)
    requires Invariant(s, limitsOf)
    requires s'.files.Keys <= s.files.Keys && forall id :: id in s'.files ==> s'.files[id] == s.files[id]
    requires s'.reservations.Keys <= s.reservations.Keys && forall id :: id in s'.reservations ==>
             s'.reservations[id] == s.reservations[id]
    requires s'.nextFile == s.nextFile && s'.repositoryUsage == s.repositoryUsage && s'.totalUsage == s.totalUsage
    ensures Invariant(s', limitsOf)
  {
    hide UsageOf, Fits;
    forall scope
        ensures Fits(limitsOf, scope, Charged(s', scope))
        ensures AtMostUsage(UsageOf(s'.files, scope), UsageOf(s.files, scope)) {
      UsageSubset(s'.files, s.files, scope);
      UsageSubset(s'.reservations, s.reservations, scope);
      FitsLess(limitsOf, scope, Charged(s', scope), Charged(s, scope));
    }
  }

  lemma RefreshKeeps(s: System, r: nat, limitsOf: nat -> Limits)
    requires ChargesFit(s, limitsOf) && forall id :: id in s.files ==> id < s.nextFile
    requires forall id :: id in s.reservations ==>
             s.reservations[id].repository in s.repositoryUsage || s.reservations[id].repository == r
    requires forall q :: q in s.repositoryUsage && q != r ==>
             AtMostUsage(UsageOf(s.files, InRepository(q)), s.repositoryUsage[q])
    ensures Invariant(Refreshed(s, r), limitsOf)
  {
    hide UsageOf, Fits;
    forall scope ensures Fits(limitsOf, scope, Charged(Refreshed(s, r), scope)) {
      assert Charged(Refreshed(s, r), scope) == Charged(s, scope);
    }
  }

  lemma ReserveKeeps(s: System, id: nat, r: nat, limitsOf: nat -> Limits)
    requires FixedLimits(limitsOf) && Invariant(s, limitsOf) && id !in s.reservations
    requires ReserveCheck(s, r, limitsOf(r)).None?
    ensures Invariant(Refreshed(s, r).(reservations := s.reservations[id := Charge(r, 0)]), limitsOf)
  {
    hide UsageOf, Fits;
    var s' := Refreshed(s, r).(reservations := s.reservations[id := Charge(r, 0)]);
    RefreshKeeps(s, r, limitsOf);
    forall scope ensures Fits(limitsOf, scope, Charged(s', scope)) {
      UsageInsert(s.reservations, scope, id, Charge(r, 0));
      ReservedFits(s, r, limitsOf, scope);
    }
  }

  lemma ReservedFits(s: System, r: nat, limitsOf: nat -> Limits, scope: Scope)
    requires FixedLimits(limitsOf) && ChargesFit(s, limitsOf) && ReserveCheck(s, r, limitsOf(r)).None?
    ensures Fits(limitsOf, scope, Plus(Charged(s, scope), ChargeUsage(Charge(r, 0), scope)))
  {
    hide UsageOf;
    assert Fits(limitsOf, scope, Charged(s, scope));
    if scope.Server? {
      forall q ensures Allows(limitsOf(q), Server, Plus(Charged(s, scope), ChargeUsage(Charge(r, 0), scope))) {
        assert Allows(limitsOf(q), Server, Charged(s, scope));
      }
    }
  }

  lemma GrowKeeps(s: System, id: nat, bytes: nat, limitsOf: nat -> Limits)
    requires FixedLimits(limitsOf) && Invariant(s, limitsOf) && id in s.reservations
    requires GrowCheck(s, id, bytes, limitsOf(s.reservations[id].repository)).None?
    ensures var c := s.reservations[id];
            Invariant(s.(reservations := s.reservations[id := c.(size := c.size + bytes)]), limitsOf)
  {
    hide UsageOf, Fits;
    var c := s.reservations[id];
    var s' := s.(reservations := s.reservations[id := c.(size := c.size + bytes)]);
    forall scope ensures Fits(limitsOf, scope, Charged(s', scope)) {
      UsageResize(s.reservations, scope, id, c.size + bytes);
      GrownFits(s, id, bytes, limitsOf, scope, Charged(s', scope));
    }
  }

  lemma GrownFits(s: System, id: nat, bytes: nat, limitsOf: nat -> Limits, scope: Scope, u: Usage)
    requires FixedLimits(limitsOf) && Invariant(s, limitsOf) && id in s.reservations
    requires GrowCheck(s, id, bytes, limitsOf(s.reservations[id].repository)).None?
    requires u.count == Charged(s, scope).count
    requires u.size == Charged(s, scope).size + if InScope(s.reservations[id], scope) then bytes else 0
    ensures Fits(limitsOf, scope, u)
  {
    hide UsageOf;
    assert Fits(limitsOf, scope, Charged(s, scope));
    var r := s.reservations[id].repository;
    assert AtMostUsage(UsageOf(s.files, InRepository(r)), s.repositoryUsage[r]);
    if scope.Server? {
      forall q ensures Allows(limitsOf(q), Server, u) {
        assert Allows(limitsOf(q), Server, Charged(s, scope));
      }
    }
  }

  // ----- committing -----

  lemma StoreConserves(s: System, id: nat, scope: Scope)
    requires id in s.reservations && s.nextFile !in s.files
    ensures Charged(Store(s, id), scope) == Charged(s, scope)
  {
    hide UsageOf;
    UsageInsert(s.files, scope, s.nextFile, s.reservations[id]);
    UsageWithout(s.reservations, scope, id);
  }

  /** Storing a batch moves its charges from the reservations to the table. */
  lemma {:induction false} StoreAllConserves(s: System, batch: seq<nat>, scope: Scope)
    requires Distinct(batch) && forall id :: id in batch ==> id in s.reservations
    requires forall id :: id in s.files ==> id < s.nextFile
    ensures Charged(StoreAll(s, batch), scope) == Charged(s, scope)
    decreases |batch|
  {
    hide Charged;
    if batch != [] {
      StoreConserves(s, batch[0], scope);
      StoreAllConserves(Store(s, batch[0]), batch[1..], scope);
    }
  }

  /** What storing a batch leaves alone. */
  lemma {:induction false} StoreAllFrame(s: System, batch: seq<nat>, r: nat, scope: Scope)
    requires Distinct(batch) && forall id :: id in batch ==> id in s.reservations && s.reservations[id].repository == r
    requires forall id :: id in s.files ==> id < s.nextFile
    ensures var t := StoreAll(s, batch);
            && t.repositoryUsage == s.repositoryUsage && t.totalUsage == s.totalUsage
            && (forall id :: id in t.files ==> id < t.nextFile)
            && t.reservations.Keys == s.reservations.Keys - (set id | id in batch)
            && (forall id :: id in t.reservations ==> t.reservations[id] == s.reservations[id])
            && (!InScope(Charge(r, 0), scope) ==> UsageOf(t.files, scope) == UsageOf(s.files, scope))
    decreases |batch|
  {
    hide UsageOf;
    if batch != [] {
      UsageInsert(s.files, scope, s.nextFile, s.reservations[batch[0]]);
      StoreAllFrame(Store(s, batch[0]), batch[1..], r, scope);
      assert (set id | id in batch) == {batch[0]} + (set id | id in batch[1..]);
    }
  }

  lemma CommitKeeps(s: System, r: nat, batch: seq<nat>, limitsOf: nat -> Limits)
    requires Invariant(s, limitsOf) && IsBatch(s, r, batch)
    ensures Invariant(Refreshed(StoreAll(s, batch), r), limitsOf)
  {
    hide UsageOf, Fits, StoreAll;
    var t := StoreAll(s, batch);
    forall scope ensures Fits(limitsOf, scope, Charged(t, scope)) {
      StoreAllConserves(s, batch, scope);
    }
    StoreAllFrame(s, batch, r, Server);
    forall q | q in t.repositoryUsage && q != r
        ensures AtMostUsage(UsageOf(t.files, InRepository(q)), t.repositoryUsage[q]) {
      StoreAllFrame(s, batch, r, InRepository(q));
    }
    RefreshKeeps(t, r, limitsOf);
  }

  /** The files of a batch were reserved, so the batch is no larger than the reservations. */
  lemma {:induction false} BatchWithin(reservations: map<nat, Charge>, batch: seq<nat>, r: nat, scope: Scope)
    requires Distinct(batch) && forall id :: id in batch ==> id in reservations && reservations[id].repository == r
    requires InScope(Charge(r, 0), scope)
    ensures AtMostUsage(BatchUsage(reservations, batch), UsageOf(reservations, scope))
    decreases |batch|
  {
    hide UsageOf;
    if batch != [] {
      UsageWithout(reservations, scope, batch[0]);
      BatchWithin(reservations - {batch[0]}, batch[1..], r, scope);
      SameBatch(reservations, batch[0], batch[1..]);
    }
  }

  lemma {:induction false} SameBatch(reservations: map<nat, Charge>, gone: nat, batch: seq<nat>)
    requires gone !in batch && forall id :: id in batch ==> id in reservations
    ensures BatchUsage(reservations - {gone}, batch) == BatchUsage(reservations, batch)
  {
    if batch != [] {
      SameBatch(reservations, gone, batch[1..]);
    }
  }

  /** Where stored and reserved usage fits, the re-check accepts a batch of live reservations. */
  lemma CommitFitsReserved(s: System, r: nat, batch: seq<nat>, limitsOf: nat -> Limits)
    requires ChargesFit(s, limitsOf) && IsBatch(s, r, batch)
    ensures CommitCheck(s, r, batch, limitsOf(r)).None?
  {
    hide UsageOf, BatchUsage;
    BatchWithin(s.reservations, batch, r, InRepository(r));
    BatchWithin(s.reservations, batch, r, Server);
    assert Fits(limitsOf, InRepository(r), Charged(s, InRepository(r)));
    assert Fits(limitsOf, Server, Charged(s, Server));
    assert Allows(limitsOf(r), Server, Charged(s, Server));
  }

  /** The re-check at commit time never rejects a batch whose reservations are live. */
  lemma CommitNeverRejected(s: System, r: nat, batch: seq<nat>, limitsOf: nat -> Limits)
    requires Invariant(s, limitsOf) && IsBatch(s, r, batch)
    ensures CommitCheck(s, r, batch, limitsOf(r)).None?
  {
    CommitFitsReserved(s, r, batch, limitsOf);
  }

  // ----- runs -----

  lemma EventKeepsInvariant(s: System, e: Event, s': System, limitsOf: nat -> Limits)
    requires FixedLimits(limitsOf) && Invariant(s, limitsOf) && Follows(s, e, s', limitsOf)
    ensures Invariant(s', limitsOf)
  {
    hide ReserveCheck, GrowCheck, CommitCheck, StoreAll, UsageOf;
    match e
    case ReserveEvent(id, r) =>
      RefreshKeeps(s, r, limitsOf);
      if ReserveCheck(s, r, limitsOf(r)).None? {
        ReserveKeeps(s, id, r, limitsOf);
      }
    case GrowEvent(id, bytes) =>
      if GrowCheck(s, id, bytes, limitsOf(s.reservations[id].repository)).None? {
        GrowKeeps(s, id, bytes, limitsOf);
      }
    case ReleaseEvent(_) => ShrinkingKeeps(s, s', limitsOf);
    case CommitEvent(r, batch) =>
      CommitNeverRejected(s, r, batch, limitsOf);
      CommitKeeps(s, r, batch, limitsOf);
    case DeleteEvent(_) => ShrinkingKeeps(s, s', limitsOf);
  }

  /** A run from a table within its limits, with nothing reserved and nothing cached. */
  ghost predicate IsRun(states: seq<System>, events: seq<Event>, limitsOf: nat -> Limits) {
    && |states| == |events| + 1
    && ChargesFit(states[0], limitsOf) && states[0].reservations == map[] && states[0].repositoryUsage == map[]
    && (forall id :: id in states[0].files ==> id < states[0].nextFile)
    && forall i :: 0 <= i < |events| ==> Follows(states[i], events[i], states[i + 1], limitsOf)
  }

  lemma {:induction false} RunInvariant(states: seq<System>, events: seq<Event>, limitsOf: nat -> Limits, i: nat)
    requires FixedLimits(limitsOf) && IsRun(states, events, limitsOf) && i < |states|
    ensures Invariant(states[i], limitsOf)
  {
    hide Follows, ChargesFit;
    if i > 0 {
      RunInvariant(states, events, limitsOf, i - 1);
      EventKeepsInvariant(states[i - 1], events[i - 1], states[i], limitsOf);
    }
  }

  /** Under any interleaving of uploads and deletions, stored and reserved bytes and files
      together stay within every limit, per repository and for the server. */
  lemma UploadsStayWithinQuota(states: seq<System>, events: seq<Event>, limitsOf: nat -> Limits, i: nat, scope: Scope)
    requires FixedLimits(limitsOf) && IsRun(states, events, limitsOf) && i < |states|
    ensures Fits(limitsOf, scope, Plus(UsageOf(states[i].files, scope), UsageOf(states[i].reservations, scope)))
  {
    hide Fits, UsageOf;
    RunInvariant(states, events, limitsOf, i);
    assert Fits(limitsOf, scope, Charged(states[i], scope));
  }

  /** And no commit of live reservations is turned away. */
  lemma RunCommitsAccepted(
    states: seq<System>, events: seq<Event>, limitsOf: nat -> Limits, i: nat, r: nat, batch: seq<nat>
  )
    requires FixedLimits(limitsOf) && IsRun(states, events, limitsOf) && i < |states| && IsBatch(states[i], r, batch)
    ensures CommitCheck(states[i], r, batch, limitsOf(r)).None?
  {
    RunInvariant(states, events, limitsOf, i);
    CommitNeverRejected(states[i], r, batch, limitsOf);
  }
}
