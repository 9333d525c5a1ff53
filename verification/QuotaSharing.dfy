/** Uploads and SMB changes that share one quota: exactly which changes leave room for what
    uploads have reserved, and when every commit is accepted. */
module QuotaSharing {
  import opened Wrappers
  import opened Sorting
  import opened QuotaLimits
  import opened UploadQuota
  import opened QuotaInterleaving

  // ----- what an event adds -----

  /** Bytes and files that an admitted event adds in repository r, beside what is charged there
      already; dropped is what it takes away. */
  datatype Change = Change(repository: nat, added: Usage, dropped: nat)

  /** What is stored and reserved in the scope after the change. */
  ghost function After(s: System, c: Change, scope: Scope): (u: Usage)
    requires c.dropped <= Charged(s, scope).size
  {
    var u := Charged(s, scope);
    Usage(u.count + c.added.count, u.size + c.added.size - c.dropped)
  }

  /** The change of an admitted SMB event or growing upload; None for every other event, which
      adds nothing to what is stored and reserved together, or one file that was checked. */
  ghost function ChangeOf(s: System, e: MixedEvent, limitsOf: nat -> Limits): Option<Change> {
    match e
    case Import(r, size) =>
      if SmbCheck(s.files, r, size, 0, true, limitsOf(r)).Some? then None else Some(Change(r, Usage(1, size), 0))
    case Replace(file, size) =>
      if file !in s.files || SmbCheck(s.files, s.files[file].repository, size, s.files[file].size, false,
                                      limitsOf(s.files[file].repository)).Some?
      then None
      else Some(Change(s.files[file].repository, Usage(0, size), s.files[file].size))
    case Resize(file, size) =>
      if file !in s.files || (size > s.files[file].size
                              && SmbCheck(s.files, s.files[file].repository, size, s.files[file].size, false,
                                          limitsOf(s.files[file].repository)).Some?)
      then None
      else Some(Change(s.files[file].repository, Usage(0, size), s.files[file].size))
    case Upload(u) =>
      if u.GrowEvent? && u.id in s.reservations && s.reservations[u.id].repository in s.repositoryUsage
         && GrowCheck(s, u.id, u.bytes, limitsOf(s.reservations[u.id].repository)).None?
      then Some(Change(s.reservations[u.id].repository, Usage(0, u.bytes), 0))
      else None
  }

  lemma DroppedIsCharged(s: System, e: MixedEvent, limitsOf: nat -> Limits, scope: Scope)
    requires ChangeOf(s, e, limitsOf).Some? && InScope(Charge(ChangeOf(s, e, limitsOf).value.repository, 0), scope)
    ensures ChangeOf(s, e, limitsOf).value.dropped <= Charged(s, scope).size
  {
    hide UsageOf, SmbCheck, GrowCheck;
    if e.Replace? || e.Resize? {
      UsageWithout(s.files, scope, e.file);
    }
  }

  /** What the event adds fits beside everything that is stored and reserved: in its repository,
      and in the server. */
  ghost predicate FitsBeside(s: System, e: MixedEvent, limitsOf: nat -> Limits) {
    var c := ChangeOf(s, e, limitsOf);
    c.Some? ==>
      forall scope :: InScope(Charge(c.value.repository, 0), scope) ==>
        && c.value.dropped <= Charged(s, scope).size
        && Fits(limitsOf, scope, After(s, c.value, scope))
  }

  // ----- one step -----

  ghost predicate KnownIds(s: System) {
    forall id :: id in s.files ==> id < s.nextFile
  }

  /** Stored and reserved usage after an event that changes it. */
  lemma ChargedAfter(s: System, e: MixedEvent, s': System, limitsOf: nat -> Limits, scope: Scope)
    requires KnownIds(s) && MixedFollows(s, e, s', limitsOf) && ChangeOf(s, e, limitsOf).Some?
    ensures var c := ChangeOf(s, e, limitsOf).value;
            if InScope(Charge(c.repository, 0), scope)
            then c.dropped <= Charged(s, scope).size && Charged(s', scope) == After(s, c, scope)
            else Charged(s', scope) == Charged(s, scope)
  {
    hide UsageOf, SmbCheck, GrowCheck;
    match e
    case Import(r, size) => UsageInsert(s.files, scope, s.nextFile, Charge(r, size));
    case Replace(file, size) => ResizedCharge(s, file, size, scope);
    case Resize(file, size) => ResizedCharge(s, file, size, scope);
    case Upload(u) =>
      UsageResize(s.reservations, scope, u.id, s.reservations[u.id].size + u.bytes);
  }

  lemma ResizedCharge(s: System, file: nat, size: nat, scope: Scope)
    requires file in s.files
    ensures var c := Change(s.files[file].repository, Usage(0, size), s.files[file].size);
            if InScope(s.files[file], scope)
            then c.dropped <= Charged(s, scope).size && Charged(SetSize(s, file, size), scope) == After(s, c, scope)
            else Charged(SetSize(s, file, size), scope) == Charged(s, scope)
  {
    hide UsageOf;
    UsageResize(s.files, scope, file, size);
    UsageWithout(s.files, scope, file);
  }

  /** Every other event keeps what is charged, or adds what was checked. */
  lemma OtherStepFits(s: System, e: MixedEvent, s': System, limitsOf: nat -> Limits)
    requires FixedLimits(limitsOf) && KnownIds(s) && ChargesFit(s, limitsOf)
    requires MixedFollows(s, e, s', limitsOf) && ChangeOf(s, e, limitsOf).None?
    ensures ChargesFit(s', limitsOf)
  {
    hide UsageOf, SmbCheck, GrowCheck, Fits, ReserveCheck, CommitCheck, StoreAll;
    if e.Upload? {
      forall scope ensures Fits(limitsOf, scope, Charged(s', scope)) {
        OtherUploadFits(s, e.e, s', limitsOf, scope);
      }
    } else {
      assert s' == s;
    }
  }

  lemma OtherUploadFits(s: System, u: Event, s': System, limitsOf: nat -> Limits, scope: Scope)
    requires FixedLimits(limitsOf) && KnownIds(s) && ChargesFit(s, limitsOf)
    requires UploadQuota.Follows(s, u, s', limitsOf) && ChangeOf(s, Upload(u), limitsOf).None?
    ensures Fits(limitsOf, scope, Charged(s', scope))
  {
    hide UsageOf, GrowCheck, Fits, ReserveCheck, CommitCheck, StoreAll;
    assert Fits(limitsOf, scope, Charged(s, scope));
    match u
    case ReserveEvent(id, r) =>
      if ReserveCheck(s, r, limitsOf(r)).None? {
        UsageInsert(s.reservations, scope, id, Charge(r, 0));
        ReservedFits(s, r, limitsOf, scope);
      }
    case GrowEvent(id, bytes) => assert s' == s;
    case CommitEvent(r, batch) =>
      if CommitCheck(s, r, batch, limitsOf(r)).None? {
        StoreAllConserves(s, batch, scope);
      } else {
        UsageSubset(s'.reservations, s.reservations, scope);
        FitsLess(limitsOf, scope, Charged(s', scope), Charged(s, scope));
      }
    case ReleaseEvent(_) =>
      UsageSubset(s'.reservations, s.reservations, scope);
      FitsLess(limitsOf, scope, Charged(s', scope), Charged(s, scope));
    case DeleteEvent(_) =>
      UsageSubset(s'.files, s.files, scope);
      FitsLess(limitsOf, scope, Charged(s', scope), Charged(s, scope));
  }

  /** From a state in which stored and reserved usage fits, it still fits after an event if and
      only if what the event adds fits beside it. */
  lemma StepFitsExactly(s: System, e: MixedEvent, s': System, limitsOf: nat -> Limits)
    requires FixedLimits(limitsOf) && KnownIds(s) && ChargesFit(s, limitsOf) && MixedFollows(s, e, s', limitsOf)
    ensures ChargesFit(s', limitsOf) <==> FitsBeside(s, e, limitsOf)
  {
    hide UsageOf, SmbCheck, GrowCheck, Fits, ReserveCheck, CommitCheck, StoreAll, ChangeOf, Charged, After;
    if ChangeOf(s, e, limitsOf).None? {
      OtherStepFits(s, e, s', limitsOf);
    } else {
      forall scope
        ensures var c := ChangeOf(s, e, limitsOf).value;
                if InScope(Charge(c.repository, 0), scope)
                then c.dropped <= Charged(s, scope).size && Charged(s', scope) == After(s, c, scope)
                else Charged(s', scope) == Charged(s, scope)
      {
        ChargedAfter(s, e, s', limitsOf, scope);
      }
    }
  }

  lemma IdsStayKnown(s: System, e: MixedEvent, s': System, limitsOf: nat -> Limits)
    requires KnownIds(s) && MixedFollows(s, e, s', limitsOf)
    ensures KnownIds(s')
  {
    hide UsageOf, SmbCheck, GrowCheck, ReserveCheck, CommitCheck, StoreAll;
    if e.Upload? && e.e.CommitEvent? && CommitCheck(s, e.e.repository, e.e.batch, limitsOf(e.e.repository)).None? {
      StoreAllFrame(s, e.e.batch, e.e.repository, Server);
    }
  }

  // ----- grows and the cache -----

  /** The usage that grow reads is at least what is stored, in the repository and in the server. */
  ghost predicate Covered(s: System, r: nat) {
    && r in s.repositoryUsage && AtMostUsage(UsageOf(s.files, InRepository(r)), s.repositoryUsage[r])
    && AtMostUsage(UsageOf(s.files, Server), s.totalUsage)
  }

  /** A grow checked against usage that covers the table fits beside everything. */
  lemma CoveredGrowFits(s: System, id: nat, bytes: nat, limitsOf: nat -> Limits)
    requires FixedLimits(limitsOf) && ChargesFit(s, limitsOf)
    requires id in s.reservations && Covered(s, s.reservations[id].repository)
    ensures FitsBeside(s, Upload(GrowEvent(id, bytes)), limitsOf)
  {
    hide UsageOf;
    var e := Upload(GrowEvent(id, bytes));
    if ChangeOf(s, e, limitsOf).Some? {
      var c := ChangeOf(s, e, limitsOf).value;
      forall scope | InScope(Charge(c.repository, 0), scope) ensures Fits(limitsOf, scope, After(s, c, scope)) {
        CoveredGrowFitsIn(s, id, bytes, limitsOf, scope);
      }
    }
  }

  lemma CoveredGrowFitsIn(s: System, id: nat, bytes: nat, limitsOf: nat -> Limits, scope: Scope)
    requires FixedLimits(limitsOf) && ChargesFit(s, limitsOf)
    requires id in s.reservations && Covered(s, s.reservations[id].repository)
    requires GrowCheck(s, id, bytes, limitsOf(s.reservations[id].repository)).None?
    requires InScope(s.reservations[id], scope)
    ensures Fits(limitsOf, scope, After(s, Change(s.reservations[id].repository, Usage(0, bytes), 0), scope))
  {
    hide UsageOf;
    assert Fits(limitsOf, scope, Charged(s, scope));
    if scope.Server? {
      forall q ensures Allows(limitsOf(q), Server,
                              After(s, Change(s.reservations[id].repository, Usage(0, bytes), 0), Server)) {
        assert Allows(limitsOf(q), Server, Charged(s, Server));
      }
    }
  }

  /** The next reservation of a repository reads the table again. */
  lemma RefreshCovers(s: System, r: nat)
    ensures Covered(Refreshed(s, r), r)
  {
    hide UsageOf;
  }

  // ----- runs -----

  ghost predicate FitsThroughout(states: seq<System>, limitsOf: nat -> Limits, n: nat)
    requires n <= |states|
  {
    forall i :: 0 <= i < n ==> ChargesFit(states[i], limitsOf)
  }

  ghost predicate AllFitBeside(states: seq<System>, events: seq<MixedEvent>, limitsOf: nat -> Limits, n: nat)
    requires n <= |events| && n <= |states|
  {
    forall i :: 0 <= i < n ==> FitsBeside(states[i], events[i], limitsOf)
  }

  lemma {:induction false} RunKnowsIds(states: seq<System>, events: seq<MixedEvent>, limitsOf: nat -> Limits, i: nat)
    requires IsMixedRun(states, events, limitsOf) && i < |states|
    ensures KnownIds(states[i])
  {
    hide MixedFollows, Fits;
    if i > 0 {
      RunKnowsIds(states, events, limitsOf, i - 1);
      IdsStayKnown(states[i - 1], events[i - 1], states[i], limitsOf);
    }
  }

  /** In a run of uploads and SMB changes that starts with room for everything reserved, stored and
      reserved usage fits in every state if and only if every event fits beside it. */
  lemma {:induction false} RunFitsExactly(states: seq<System>, events: seq<MixedEvent>, limitsOf: nat -> Limits, n: nat)
    requires FixedLimits(limitsOf) && IsMixedRun(states, events, limitsOf) && ChargesFit(states[0], limitsOf)
    requires n <= |events|
    ensures FitsThroughout(states, limitsOf, n + 1) <==> AllFitBeside(states, events, limitsOf, n)
  {
    hide MixedFollows, FitsBeside, ChargesFit, KnownIds;
    if n > 0 {
      RunFitsExactly(states, events, limitsOf, n - 1);
      RunKnowsIds(states, events, limitsOf, n - 1);
      if ChargesFit(states[n - 1], limitsOf) {
        StepFitsExactly(states[n - 1], events[n - 1], states[n], limitsOf);
      }
    }
  }

  /** In such a run no commit of live reservations is turned away. */
  lemma MixedCommitsAccepted(
    states: seq<System>, events: seq<MixedEvent>, limitsOf: nat -> Limits, i: nat, r: nat, batch: seq<nat>
  )
    requires FixedLimits(limitsOf) && IsMixedRun(states, events, limitsOf) && ChargesFit(states[0], limitsOf)
    requires i <= |events| && AllFitBeside(states, events, limitsOf, i) && IsBatch(states[i], r, batch)
    ensures CommitCheck(states[i], r, batch, limitsOf(r)).None?
  {
    hide MixedFollows, FitsBeside, ChargesFit, CommitCheck, IsBatch;
    RunFitsExactly(states, events, limitsOf, i);
    CommitFitsReserved(states[i], r, batch, limitsOf);
  }

  // ----- what goes wrong otherwise -----

  /** With a reservation of six of ten bytes in place, an import of six more is admitted. It does not
      fit beside the reservation, and the commit is turned away. */
  lemma ImportIgnoresReservations(s: System)
    requires s.files == map[] && s.nextFile == 0 && s.reservations == map[7 := Charge(0, 6)]
    ensures var t, limitsOf := s.(files := map[0 := Charge(0, 6)], nextFile := 1), (r: nat) => TEN_BYTES;
            && MixedFollows(s, Import(0, 6), t, limitsOf) && !FitsBeside(s, Import(0, 6), limitsOf)
            && Charged(t, InRepository(0)).size == 12
            && CommitCheck(t, 0, [7], TEN_BYTES) == Some(REPOSITORY_STORAGE)
  {
    hide UsageOf;
    EmptyUsage(InRepository(0));
    EmptyUsage(Server);
    SingleUsage(0, Charge(0, 6), InRepository(0));
    SingleUsage(7, Charge(0, 6), InRepository(0));
    assert s.files[0 := Charge(0, 6)] == map[0 := Charge(0, 6)];
    SixBytes(s.reservations);
    var c := ChangeOf(s, Import(0, 6), (r: nat) => TEN_BYTES).value;
    assert !Fits((r: nat) => TEN_BYTES, InRepository(0), After(s, c, InRepository(0)));
  }

  lemma SixBytes(reservations: map<nat, Charge>)
    requires reservations == map[7 := Charge(0, 6)]
    ensures BatchUsage(reservations, [7]) == Usage(1, 6)
  {
    assert [7][1..] == [];
  }

  /** The import may as well come first and fit beside everything reserved: as long as the cached
      usage is older than the import, a grow of six bytes is admitted that does not. */
  lemma GrowTrustsStaleUsage(s: System)
    requires s.files == map[] && s.nextFile == 0 && s.reservations == map[7 := Charge(0, 0)]
    requires s.repositoryUsage == map[0 := Usage(0, 0)] && s.totalUsage == Usage(0, 0)
    ensures var t, limitsOf := s.(files := map[0 := Charge(0, 6)], nextFile := 1), (r: nat) => TEN_BYTES;
            var u := t.(reservations := map[7 := Charge(0, 6)]);
            && MixedFollows(s, Import(0, 6), t, limitsOf) && FitsBeside(s, Import(0, 6), limitsOf)
            && MixedFollows(t, Upload(GrowEvent(7, 6)), u, limitsOf)
            && !FitsBeside(t, Upload(GrowEvent(7, 6)), limitsOf) && !Covered(t, 0)
            && Charged(u, InRepository(0)).size == 12
            && CommitCheck(u, 0, [7], TEN_BYTES) == Some(REPOSITORY_STORAGE)
  {
    hide UsageOf;
    var t, limitsOf := s.(files := map[0 := Charge(0, 6)], nextFile := 1), (r: nat) => TEN_BYTES;
    var u := t.(reservations := map[7 := Charge(0, 6)]);
    forall scope
      ensures UsageOf(map[], scope) == Usage(0, 0)
      ensures UsageOf(t.files, scope) == ChargeUsage(Charge(0, 6), scope)
      ensures UsageOf(s.reservations, scope) == ChargeUsage(Charge(0, 0), scope)
      ensures UsageOf(u.reservations, scope) == ChargeUsage(Charge(0, 6), scope)
    {
      EmptyUsage(scope);
      SingleUsage(0, Charge(0, 6), scope);
      SingleUsage(7, Charge(0, 0), scope);
      SingleUsage(7, Charge(0, 6), scope);
    }
    assert s.files[0 := Charge(0, 6)] == t.files;
    assert t.reservations[7 := Charge(0, 6)] == u.reservations;
    SixBytes(u.reservations);
    var c := ChangeOf(t, Upload(GrowEvent(7, 6)), limitsOf).value;
    assert !Fits(limitsOf, InRepository(0), After(t, c, InRepository(0)));
  }
}
