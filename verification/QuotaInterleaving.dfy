/** Uploads and SMB synchronization on one files table. SMB changes never refresh the
    coordinator's cache; the recorded usage stays within quota all the same. */
module QuotaInterleaving {
  import opened Wrappers
  import opened Sorting
  import opened QuotaLimits
  import opened UploadQuota

  datatype MixedEvent =
    | Upload(e: Event)
    | Import(repository: nat, size: nat)
    | Replace(file: nat, size: nat)
    | Resize(file: nat, size: nat)

  ghost function SmbCheck(
    files: map<nat, Charge>, r: nat, nextSize: nat, replacedSize: nat, addsFile: bool, limits: Limits
  ): Option<Quota> {
    EnforceSmbFileQuota(limits, UsageOf(files, InRepository(r)), UsageOf(files, Server), nextSize, replacedSize,
                        addsFile)
  }

  function SetSize(s: System, file: nat, size: nat): System
    requires file in s.files
  {
    s.(files := s.files[file := s.files[file].(size := size)])
  }

  /** A rejected import or replacement leaves the table alone; a file that shrank is not checked. */
  ghost predicate MixedFollows(s: System, e: MixedEvent, s': System, limitsOf: nat -> Limits) {
    match e
    case Upload(u) => UploadQuota.Follows(s, u, s', limitsOf)
    case Import(r, size) =>
      s' == if SmbCheck(s.files, r, size, 0, true, limitsOf(r)).Some? then s
            else s.(files := s.files[s.nextFile := Charge(r, size)], nextFile := s.nextFile + 1)
    case Replace(file, size) =>
      file in s.files &&
      var c := s.files[file];
      s' == if SmbCheck(s.files, c.repository, size, c.size, false, limitsOf(c.repository)).Some? then s
          else SetSize(s, file, size)
    case Resize(file, size) =>
      file in s.files &&
      var c := s.files[file];
      s' == if size > c.size
          && SmbCheck(s.files, c.repository, size, c.size, false, limitsOf(c.repository)).Some? then s
            else SetSize(s, file, size)
  }

  ghost predicate TableFits(s: System, limitsOf: nat -> Limits) {
    && (forall scope :: Fits(limitsOf, scope, UsageOf(s.files, scope)))
    && (forall id :: id in s.files ==> id < s.nextFile)
  }

  /** A usage that passed a check against one repository's limits fits everywhere it counts. */
  lemma CheckedFits(limitsOf: nat -> Limits, r: nat, scope: Scope, u: Usage)
    requires FixedLimits(limitsOf) && InScope(Charge(r, 0), scope) && Allows(limitsOf(r), scope, u)
    ensures Fits(limitsOf, scope, u)
  {}

  lemma ImportFits(s: System, r: nat, size: nat, limitsOf: nat -> Limits, scope: Scope)
    requires FixedLimits(limitsOf) && TableFits(s, limitsOf)
    requires SmbCheck(s.files, r, size, 0, true, limitsOf(r)).None?
    ensures Fits(limitsOf, scope, UsageOf(s.files[s.nextFile := Charge(r, size)], scope))
  {
    hide UsageOf, Fits;
    UsageInsert(s.files, scope, s.nextFile, Charge(r, size));
    if InScope(Charge(r, 0), scope) {
      CheckedFits(limitsOf, r, scope, UsageOf(s.files[s.nextFile := Charge(r, size)], scope));
    } else {
      assert Fits(limitsOf, scope, UsageOf(s.files, scope));
    }
  }

  lemma ResizeFits(s: System, file: nat, size: nat, limitsOf: nat -> Limits, scope: Scope)
    requires FixedLimits(limitsOf) && TableFits(s, limitsOf) && file in s.files
    requires var c := s.files[file];
             size > c.size ==> SmbCheck(s.files, c.repository, size, c.size, false, limitsOf(c.repository)).None?
    ensures Fits(limitsOf, scope, UsageOf(SetSize(s, file, size).files, scope))
  {
    hide UsageOf, Fits;
    var c, u, v := s.files[file], UsageOf(s.files, scope), UsageOf(SetSize(s, file, size).files, scope);
    UsageResize(s.files, scope, file, size);
    assert Fits(limitsOf, scope, u);
    if InScope(c, scope) && size > c.size {
      UsageHasFile(s.files, file, scope);
      CountsAllowed(limitsOf, c.repository, scope, u);
      CheckedFits(limitsOf, c.repository, scope, v);
    } else {
      FitsLess(limitsOf, scope, v, u);
    }
  }

  lemma UsageHasFile(files: map<nat, Charge>, file: nat, scope: Scope)
    requires file in files && InScope(files[file], scope)
    ensures UsageOf(files, scope).size >= files[file].size
  {
    UsageWithout(files, scope, file);
  }

  lemma CountsAllowed(limitsOf: nat -> Limits, r: nat, scope: Scope, u: Usage)
    requires Fits(limitsOf, scope, u) && InScope(Charge(r, 0), scope)
    ensures Allows(limitsOf(r), scope, u)
  {}

  // ----- uploads -----

  lemma {:induction false} StoreAllUsage(s: System, batch: seq<nat>, r: nat, scope: Scope)
    requires Distinct(batch) && forall id :: id in batch ==> id in s.reservations && s.reservations[id].repository == r
    requires forall id :: id in s.files ==> id < s.nextFile
    ensures UsageOf(StoreAll(s, batch).files, scope)
            == Plus(UsageOf(s.files, scope),
                    if InScope(Charge(r, 0), scope) then BatchUsage(s.reservations, batch) else Usage(0, 0))
    decreases |batch|
  {
    hide UsageOf;
    if batch != [] {
      UsageInsert(s.files, scope, s.nextFile, s.reservations[batch[0]]);
      StoreAllUsage(Store(s, batch[0]), batch[1..], r, scope);
      SameBatch(s.reservations, batch[0], batch[1..]);
    }
  }

  lemma CommitFits(s: System, r: nat, batch: seq<nat>, limitsOf: nat -> Limits, scope: Scope)
    requires FixedLimits(limitsOf) && TableFits(s, limitsOf) && IsBatch(s, r, batch)
    requires CommitCheck(s, r, batch, limitsOf(r)).None?
    ensures Fits(limitsOf, scope, UsageOf(StoreAll(s, batch).files, scope))
  {
    hide UsageOf, Fits, BatchUsage, StoreAll;
    StoreAllUsage(s, batch, r, scope);
    if InScope(Charge(r, 0), scope) {
      CheckedFits(limitsOf, r, scope, UsageOf(StoreAll(s, batch).files, scope));
    } else {
      assert Fits(limitsOf, scope, UsageOf(s.files, scope));
    }
  }

  lemma UploadKeepsTable(s: System, e: Event, s': System, limitsOf: nat -> Limits)
    requires FixedLimits(limitsOf) && TableFits(s, limitsOf) && UploadQuota.Follows(s, e, s', limitsOf)
    ensures TableFits(s', limitsOf)
  {
    hide UsageOf, Fits, StoreAll, ReserveCheck, GrowCheck, CommitCheck;
    match e
    case CommitEvent(r, batch) =>
      if CommitCheck(s, r, batch, limitsOf(r)).None? {
        StoreAllFrame(s, batch, r, Server);
        forall scope ensures Fits(limitsOf, scope, UsageOf(StoreAll(s, batch).files, scope)) {
          CommitFits(s, r, batch, limitsOf, scope);
        }
      }
    case DeleteEvent(file) =>
      forall scope ensures Fits(limitsOf, scope, UsageOf(s'.files, scope)) {
        UsageSubset(s'.files, s.files, scope);
        FitsLess(limitsOf, scope, UsageOf(s'.files, scope), UsageOf(s.files, scope));
      }
    case _ =>
  }

  // ----- runs -----

  lemma MixedKeepsTable(s: System, e: MixedEvent, s': System, limitsOf: nat -> Limits)
    requires FixedLimits(limitsOf) && TableFits(s, limitsOf) && MixedFollows(s, e, s', limitsOf)
    ensures TableFits(s', limitsOf)
  {
    hide UsageOf, Fits, SmbCheck;
    match e
    case Upload(u) => UploadKeepsTable(s, u, s', limitsOf);
    case Import(r, size) =>
      if s'.files != s.files {
        forall scope ensures Fits(limitsOf, scope, UsageOf(s'.files, scope)) {
          ImportFits(s, r, size, limitsOf, scope);
        }
      }
    case Replace(file, size) =>
      if s' != s {
        forall scope ensures Fits(limitsOf, scope, UsageOf(s'.files, scope)) {
          ResizeFits(s, file, size, limitsOf, scope);
        }
      }
    case Resize(file, size) =>
      if s' != s {
        forall scope ensures Fits(limitsOf, scope, UsageOf(s'.files, scope)) {
          ResizeFits(s, file, size, limitsOf, scope);
        }
      }
  }

  ghost predicate IsMixedRun(states: seq<System>, events: seq<MixedEvent>, limitsOf: nat -> Limits) {
    && |states| == |events| + 1 && TableFits(states[0], limitsOf)
    && forall i :: 0 <= i < |events| ==> MixedFollows(states[i], events[i], states[i + 1], limitsOf)
  }

  /** However upload commits, imports, replacements, growth and deletions interleave, the recorded
      size and count of every repository and of the server stay within quota. */
  lemma {:induction false} RecordedUsageStaysWithinQuota(
    states: seq<System>, events: seq<MixedEvent>, limitsOf: nat -> Limits, i: nat, scope: Scope
  )
    requires FixedLimits(limitsOf) && IsMixedRun(states, events, limitsOf) && i < |states|
    ensures Fits(limitsOf, scope, UsageOf(states[i].files, scope))
  {
    hide MixedFollows, Fits, UsageOf;
    MixedRunFits(states, events, limitsOf, i);
  }

  lemma {:induction false} MixedRunFits(states: seq<System>, events: seq<MixedEvent>, limitsOf: nat -> Limits, i: nat)
    requires FixedLimits(limitsOf) && IsMixedRun(states, events, limitsOf) && i < |states|
    ensures TableFits(states[i], limitsOf)
  {
    hide MixedFollows, TableFits;
    if i > 0 {
      MixedRunFits(states, events, limitsOf, i - 1);
      MixedKeepsTable(states[i - 1], events[i - 1], states[i], limitsOf);
    }
  }

  // ----- reservations beside SMB imports -----

  const TEN_BYTES := Limits(Unlimited, AtMost(10), Unlimited, Unlimited, Unlimited)

  lemma SingleUsage(id: nat, c: Charge, scope: Scope)
    ensures UsageOf(map[id := c], scope) == ChargeUsage(c, scope)
  {
    EmptyUsage(scope);
    UsageInsert(map[], scope, id, c);
    assert map[][id := c] == map[id := c];
  }
}
