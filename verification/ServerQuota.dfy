/** The files tables of all repositories of a server, changed by upload commits, whole SMB passes
    and deletions in any order. What the rest of the server uses is read anew at every check. */
module ServerQuota {
  import opened Wrappers
  import opened Totals
  import opened Sorting
  import opened QuotaLimits
  import opened SmbTables
  import opened SmbSync
  import opened SmbScan
  import opened SmbRows
  import opened SmbRuns
  import opened SmbQuota

  type Server = map<nat, Db>

  /** The settings of every repository; those of the server are the same wherever they are read. */
  datatype Policy = Policy(limitsOf: nat -> Limits, maxFolders: nat) {
    ghost predicate Fixed() {
      forall a, b :: limitsOf(a).totalBytes == limitsOf(b).totalBytes
          && limitsOf(a).totalCount == limitsOf(b).totalCount
    }
  }

  ghost function FilesIn(): Db -> nat {
    (db: Db) => |db.files|
  }

  ghost function BytesIn(): Db -> nat {
    (db: Db) => RepositoryUsage(db.files).size
  }

  /** COUNT(*) and SUM(size) over the files of all repositories. */
  ghost function ServerUsage(s: Server): Usage {
    Usage(Total(s, FilesIn()), Total(s, BytesIn()))
  }

  /** What a check in repository r reads. */
  ghost function SettingsOf(s: Server, r: nat, policy: Policy): Settings {
    Settings(policy.limitsOf(r), policy.maxFolders, ServerUsage(s - {r}))
  }

  // ----- uploads -----

  function UploadUsage(files: seq<File>): Usage {
    if files == [] then Usage(0, 0)
    else var rest := UploadUsage(files[1..]); Usage(1 + rest.count, files[0].size + rest.size)
  }

  function StoreUpload(db: Db, file: File): Db {
    db.(files := db.files[db.nextId := file], nextId := db.nextId + 1)
  }

  /** The rows of one request. */
  function StoreUploads(db: Db, files: seq<File>): Db
    decreases |files|
  {
    if files == [] then db
    else StoreUploads(StoreUpload(db, files[0]), files[1..])
  }

  // ----- steps -----

  datatype Event =
    | CommitUpload(repository: nat, uploaded: seq<File>)
    | Synchronize(repository: nat, scan: seq<Entry>)
    | DeleteFile(repository: nat, file: nat)
    | DeleteFolder(repository: nat, row: Row)
    | CreateRepository(repository: nat)
    | DeleteRepository(repository: nat)

  ghost predicate Follows(s: Server, e: Event, s': Server, policy: Policy) {
    match e
    case CommitUpload(r, uploaded) =>
      r in s &&
      s' == if EnforceUploadQuotas(policy.limitsOf(r), RepositoryUsage(s[r].files), ServerUsage(s),
                                   UploadUsage(uploaded)).Some?
            then s else s[r := StoreUploads(s[r], uploaded)]
    case Synchronize(r, scan) =>
      r in s && PathsDistinct(ScanFiles(scan)) &&
      var pass := SyncProjection(s[r], SettingsOf(s, r, policy), scan);
      pass.Some? && s' == s[r := pass.value.db]
    case DeleteFile(r, file) => r in s && s' == s[r := DeleteFileObject(s[r], file)]
    case DeleteFolder(r, row) =>
      r in s &&
      var db := DeleteFolderObject(s[r], row);
      db.Some? && s' == s[r := db.value]
    case CreateRepository(r) => r !in s && s' == s[r := Db(map[], map[], [], 0)]
    case DeleteRepository(r) => s' == s - {r}
  }

  // ----- the invariant -----

  ghost predicate WithinQuota(s: Server, policy: Policy) {
    forall r :: r in s ==> WithinLimits(s[r].files, SettingsOf(s, r, policy))
  }

  ghost predicate Invariant(s: Server, policy: Policy) {
    WithinQuota(s, policy) && forall r :: r in s ==> Constraints(s[r])
  }

  lemma UsageSplits(s: Server, r: nat)
    requires r in s
    ensures ServerUsage(s).count == |s[r].files| + ServerUsage(s - {r}).count
    ensures ServerUsage(s).size == RepositoryUsage(s[r].files).size + ServerUsage(s - {r}).size
  {
    TotalWithout(s, FilesIn(), r);
    TotalWithout(s, BytesIn(), r);
  }

  /** Within the limits of the repository and of the server, wherever both are read. */
  lemma WithinMeans(s: Server, r: nat, policy: Policy)
    requires r in s
    ensures WithinLimits(s[r].files, SettingsOf(s, r, policy)) <==>
            var limits, here, all := policy.limitsOf(r), RepositoryUsage(s[r].files), ServerUsage(s);
            && !limits.repositoryBytes.Exceeded(here.size) && !limits.repositoryCount.Exceeded(here.count)
            && !limits.totalBytes.Exceeded(all.size) && !limits.totalCount.Exceeded(all.count)
  {
    hide ServerUsage, RepositoryUsage;
    UsageSplits(s, r);
    CountIs(s[r].files);
  }

  lemma CountIs(files: map<nat, File>)
    ensures RepositoryUsage(files).count == |files|
  {}

  /** A changed repository that is within quota takes no other repository beyond it. */
  lemma ChangedWithin(s: Server, r: nat, db: Db, policy: Policy)
    requires policy.Fixed() && Invariant(s, policy)
    requires Constraints(db) && WithinLimits(db.files, SettingsOf(s, r, policy))
    ensures Invariant(s[r := db], policy)
  {
    hide Constraints, WithinLimits, RepositoryUsage, ServerUsage;
    var s' := s[r := db];
    assert s' - {r} == s - {r};
    WithinMeans(s', r, policy);
    forall q | q in s' ensures WithinLimits(s'[q].files, SettingsOf(s', q, policy)) {
      WithinMeans(s', q, policy);
      if q != r {
        WithinMeans(s, q, policy);
      }
    }
  }

  // ----- the single steps -----

  lemma StoredUpload(db: Db, file: File)
    requires Constraints(db)
    ensures Constraints(StoreUpload(db, file))
    ensures RepositoryUsage(StoreUpload(db, file).files)
            == Usage(RepositoryUsage(db.files).count + 1, RepositoryUsage(db.files).size + file.size)
  {
    hide Total, UniqueRows, Distinct;
    TotalInsert(db.files, SizeOf(), db.nextId, file);
    assert db.files[db.nextId := file].Keys == db.files.Keys + {db.nextId};
    assert |db.files[db.nextId := file]| == |db.files[db.nextId := file].Keys| && |db.files| == |db.files.Keys|;
  }

  lemma {:induction false} StoredUploads(db: Db, uploaded: seq<File>)
    requires Constraints(db)
    ensures Constraints(StoreUploads(db, uploaded))
    ensures RepositoryUsage(StoreUploads(db, uploaded).files).size
             == RepositoryUsage(db.files).size + UploadUsage(uploaded).size
    ensures RepositoryUsage(StoreUploads(db, uploaded).files).count
             == RepositoryUsage(db.files).count + UploadUsage(uploaded).count
    decreases |uploaded|
  {
    hide RepositoryUsage, Constraints, StoreUpload;
    if uploaded != [] {
      StoredUpload(db, uploaded[0]);
      StoredUploads(StoreUpload(db, uploaded[0]), uploaded[1..]);
    }
  }

  lemma CommitWithin(s: Server, r: nat, uploaded: seq<File>, policy: Policy)
    requires r in s && Constraints(s[r])
    requires EnforceUploadQuotas(policy.limitsOf(r), RepositoryUsage(s[r].files), ServerUsage(s),
                                 UploadUsage(uploaded)).None?
    ensures Constraints(StoreUploads(s[r], uploaded))
    ensures WithinLimits(StoreUploads(s[r], uploaded).files, SettingsOf(s, r, policy))
  {
    StoredUploads(s[r], uploaded);
    hide Constraints, RepositoryUsage, ServerUsage, StoreUploads;
    UsageSplits(s, r);
    CountIs(s[r].files);
  }

  lemma DeletedFileShrinks(db: Db, id: nat)
    ensures FilesShrink(db, DeleteFileObject(db, id))
  {}

  lemma DeletedFolderShrinks(db: Db, row: Row)
    requires DeleteFolderObject(db, row).Some?
    ensures FilesShrink(db, DeleteFolderObject(db, row).value)
  {}

  lemma RemovedRepository(s: Server, r: nat, policy: Policy)
    requires Invariant(s, policy)
    ensures Invariant(s - {r}, policy)
  {
    hide Constraints, WithinLimits, RepositoryUsage;
    var s' := s - {r};
    TotalSubset(s', s, FilesIn());
    TotalSubset(s', s, BytesIn());
    forall q | q in s' ensures WithinLimits(s'[q].files, SettingsOf(s', q, policy)) {
      WithinMeans(s, q, policy);
      WithinMeans(s', q, policy);
    }
  }

  lemma NewRepository(s: Server, r: nat, policy: Policy)
    requires policy.Fixed() && Invariant(s, policy) && r !in s
    ensures Invariant(s[r := Db(map[], map[], [], 0)], policy)
  {
    hide RepositoryUsage;
    var empty := Db(map[], map[], [], 0);
    assert s - {r} == s;
    NoFiles();
    if q :| q in s {
      WithinMeans(s, q, policy);
    } else {
      assert s == map[];
    }
    ChangedWithin(s, r, empty, policy);
  }

  lemma NoFiles()
    ensures RepositoryUsage(map[]) == Usage(0, 0)
  {}

  /** One pass of one repository, checked against what all others use, is one step. */
  lemma SynchronizedWithin(s: Server, r: nat, scan: seq<Entry>, policy: Policy, db: Db)
    requires r in s && Invariant(s, policy) && PathsDistinct(ScanFiles(scan))
    requires SyncProjection(s[r], SettingsOf(s, r, policy), scan).Some?
    requires SyncProjection(s[r], SettingsOf(s, r, policy), scan).value.db == db
    ensures Constraints(db) && WithinLimits(db.files, SettingsOf(s, r, policy))
  {
    hide SyncProjection, Constraints, WithinLimits, ServerUsage;
    PassKeepsConstraints(s[r], SettingsOf(s, r, policy), scan);
    PassKeepsQuota(s[r], SettingsOf(s, r, policy), scan);
  }

  lemma StepKeepsQuota(s: Server, e: Event, s': Server, policy: Policy)
    requires policy.Fixed() && Invariant(s, policy) && Follows(s, e, s', policy)
    ensures Invariant(s', policy)
  {
    hide Constraints, WithinLimits, ServerUsage, SyncProjection, RepositoryUsage, FilesShrink, StoreUploads,
         DeleteFolderObject, DeleteFileObject;
    match e
    case CommitUpload(r, uploaded) =>
      if s' != s {
        CommitWithin(s, r, uploaded, policy);
        ChangedWithin(s, r, s'[r], policy);
      }
    case Synchronize(r, scan) =>
      SynchronizedWithin(s, r, scan, policy, s'[r]);
      ChangedWithin(s, r, s'[r], policy);
    case DeleteFile(r, file) =>
      DeleteFileConstraints(s[r], file);
      DeletedFileShrinks(s[r], file);
      ShrunkWithin(s[r], s'[r], SettingsOf(s, r, policy));
      ChangedWithin(s, r, s'[r], policy);
    case DeleteFolder(r, row) =>
      DeleteFolderConstraints(s[r], row);
      DeletedFolderShrinks(s[r], row);
      ShrunkWithin(s[r], s'[r], SettingsOf(s, r, policy));
      ChangedWithin(s, r, s'[r], policy);
    case CreateRepository(r) =>
      NewRepository(s, r, policy);
    case DeleteRepository(r) =>
      RemovedRepository(s, r, policy);
  }

  // ----- runs -----

  ghost predicate IsRun(states: seq<Server>, events: seq<Event>, policy: Policy) {
    && |states| == |events| + 1 && Invariant(states[0], policy)
    && forall i :: 0 <= i < |events| ==> Follows(states[i], events[i], states[i + 1], policy)
  }

  lemma {:induction false} RunKeepsQuota(states: seq<Server>, events: seq<Event>, policy: Policy, i: nat)
    requires policy.Fixed() && IsRun(states, events, policy) && i < |states|
    ensures Invariant(states[i], policy)
  {
    hide Follows, Invariant;
    if i > 0 {
      RunKeepsQuota(states, events, policy, i - 1);
      StepKeepsQuota(states[i - 1], events[i - 1], states[i], policy);
    }
  }

  /** However upload commits, passes of the repositories and deletions interleave, in every state
      the recorded bytes and files of every repository and of the whole server are within quota. */
  lemma EveryStateIsWithinQuota(states: seq<Server>, events: seq<Event>, policy: Policy, i: nat, r: nat)
    requires policy.Fixed() && IsRun(states, events, policy) && i < |states| && r in states[i]
    ensures var limits, here, all := policy.limitsOf(r), RepositoryUsage(states[i][r].files), ServerUsage(states[i]);
            && !limits.repositoryBytes.Exceeded(here.size) && !limits.repositoryCount.Exceeded(here.count)
            && !limits.totalBytes.Exceeded(all.size) && !limits.totalCount.Exceeded(all.count)
  {
    hide Follows, WithinLimits, RepositoryUsage, ServerUsage;
    RunKeepsQuota(states, events, policy, i);
    WithinMeans(states[i], r, policy);
  }
}
