/** Configured limits and the usage checks made against them. */
module QuotaLimits {
  import opened Wrappers

  /** Number.POSITIVE_INFINITY or a finite bound. */
  datatype Limit = Unlimited | AtMost(bound: nat) {
    predicate Exceeded(amount: int) {
      AtMost? && amount > bound
    }
  }

  datatype Limits = Limits(
    fileSize: Limit,
    repositoryBytes: Limit,
    totalBytes: Limit,
    repositoryCount: Limit,
    totalCount: Limit)

  datatype Usage = Usage(count: nat, size: nat)

  datatype Quota =
    | FILE_SIZE | REPOSITORY_STORAGE | TOTAL_STORAGE | REPOSITORY_FILE_COUNT | TOTAL_FILE_COUNT

  /** enforceSmbFileQuota: the first limit that the change would break, if any. */
  function EnforceSmbFileQuota(
    limits: Limits, repository: Usage, total: Usage, nextSize: nat, replacedSize: nat, addsFile: bool
  ): Option<Quota> {
    var delta := nextSize - replacedSize;
    if limits.fileSize.Exceeded(nextSize) then Some(FILE_SIZE)
    else if limits.repositoryBytes.Exceeded(repository.size + delta) then Some(REPOSITORY_STORAGE)
    else if limits.totalBytes.Exceeded(total.size + delta) then Some(TOTAL_STORAGE)
    else if addsFile && limits.repositoryCount.Exceeded(repository.count + 1) then Some(REPOSITORY_FILE_COUNT)
    else if addsFile && limits.totalCount.Exceeded(total.count + 1) then Some(TOTAL_FILE_COUNT)
    else None
  }

  /** enforceUploadQuotas, over the bytes and the number of files of one request. */
  function EnforceUploadQuotas(
    limits: Limits, repository: Usage, total: Usage, uploaded: Usage
  ): Option<Quota> {
    if limits.repositoryBytes.Exceeded(repository.size + uploaded.size) then Some(REPOSITORY_STORAGE)
    else if limits.totalBytes.Exceeded(total.size + uploaded.size) then Some(TOTAL_STORAGE)
    else if limits.repositoryCount.Exceeded(repository.count + uploaded.count) then Some(REPOSITORY_FILE_COUNT)
    else if limits.totalCount.Exceeded(total.count + uploaded.count) then Some(TOTAL_FILE_COUNT)
    else None
  }
}
