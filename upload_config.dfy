/** The runtime-adjustable upload limits: a single current configuration,
    validated partial updates, and a reset to the defaults. */
module UploadConfig {
  import opened Basics

  const MB: int := 1024 * 1024
  /** The largest accepted `maxFileSize`: 500 MB. */
  const MAX_FILE_SIZE_LIMIT: int := 500 * MB
  /** The largest accepted `maxBatchCount`. */
  const MAX_BATCH_COUNT_LIMIT: int := 500

  datatype UploadConfigType = UploadConfigType(maxFileSize: int, maxBatchCount: int)

  /** `Partial<UploadConfigType>`: an absent field is `None`. */
  datatype ConfigPatch = ConfigPatch(maxFileSize: Option<int>, maxBatchCount: Option<int>)

  const DEFAULT_CONFIG: UploadConfigType := UploadConfigType(10 * MB, 10)

  /** The bounds every configuration reachable from the defaults satisfies. */
  predicate WithinBounds(c: UploadConfigType) {
    0 < c.maxFileSize <= MAX_FILE_SIZE_LIMIT && 0 < c.maxBatchCount <= MAX_BATCH_COUNT_LIMIT
  }

  /** The validation `updateConfig` runs before it assigns anything: the
      message of the first failed check, in source order, or `None`. */
  function PatchError(p: ConfigPatch): (err: Option<string>)
    ensures err.None? <==>
              (p.maxFileSize.None? || 0 < p.maxFileSize.value <= MAX_FILE_SIZE_LIMIT) &&
              (p.maxBatchCount.None? || 0 < p.maxBatchCount.value <= MAX_BATCH_COUNT_LIMIT)
    ensures p.maxFileSize.Some? && p.maxFileSize.value <= 0 ==> err == Some("maxFileSize 必须大于 0")
    ensures p.maxFileSize.Some? && p.maxFileSize.value > MAX_FILE_SIZE_LIMIT ==>
              err == Some("maxFileSize 不能超过 500MB")
    ensures ((p.maxFileSize.None? || 0 < p.maxFileSize.value <= MAX_FILE_SIZE_LIMIT) &&
            p.maxBatchCount.Some? && p.maxBatchCount.value <= 0) ==> err == Some("maxBatchCount 必须大于 0")
    ensures ((p.maxFileSize.None? || 0 < p.maxFileSize.value <= MAX_FILE_SIZE_LIMIT) &&
            p.maxBatchCount.Some? && p.maxBatchCount.value > MAX_BATCH_COUNT_LIMIT) ==>
              err == Some("maxBatchCount 不能超过 500")
  {
    if p.maxFileSize.Some? && p.maxFileSize.value <= 0 then Some("maxFileSize 必须大于 0")
    else if p.maxFileSize.Some? && p.maxFileSize.value > 500 * 1024 * 1024 then Some("maxFileSize 不能超过 500MB")
    else if p.maxBatchCount.Some? && p.maxBatchCount.value <= 0 then Some("maxBatchCount 必须大于 0")
    else if p.maxBatchCount.Some? && p.maxBatchCount.value > 500 then Some("maxBatchCount 不能超过 500")
    else None
  }

  /** `{ ...current, ...patch }`: given fields override, absent fields keep. */
  function Merge(c: UploadConfigType, p: ConfigPatch): (r: UploadConfigType)
    ensures r.maxFileSize == (if p.maxFileSize.Some? then p.maxFileSize.value else c.maxFileSize)
    ensures r.maxBatchCount == (if p.maxBatchCount.Some? then p.maxBatchCount.value else c.maxBatchCount)
  {
    UploadConfigType(
      match p.maxFileSize case Some(v) => v case None => c.maxFileSize,
      match p.maxBatchCount case Some(v) => v case None => c.maxBatchCount)
  }

  /** A validated update applied to `c`: the new configuration, or the
      error thrown with `c` left as it was. */
  function Updated(c: UploadConfigType, p: ConfigPatch): (r: Outcome<UploadConfigType>)
    ensures r.Throws? <==> PatchError(p).Some?
    ensures r.Throws? ==> r.error == ErrorObject(PatchError(p).value)
    ensures r.Returns? ==> r.value == Merge(c, p)
    ensures WithinBounds(c) && r.Returns? ==> WithinBounds(r.value)
  {
    match PatchError(p)
    case Some(msg) => Throws(ErrorObject(msg))
    case None => Returns(Merge(c, p))
  }

  /** The sequence of calls the module variable can see. */
  datatype ConfigCall = Update(patch: ConfigPatch) | Reset

  function Step(c: UploadConfigType, call: ConfigCall): UploadConfigType {
    match call
    case Reset => DEFAULT_CONFIG
    case Update(p) => if Updated(c, p).Returns? then Updated(c, p).value else c
  }

  function Run(c: UploadConfigType, calls: seq<ConfigCall>): UploadConfigType
    decreases |calls|
  {
    if calls == [] then c else Run(Step(c, calls[0]), calls[1..])
  }

  /** Starting from the defaults, every sequence of updates and resets
      keeps both limits positive and within their caps. */
  lemma {:induction false} RunStaysWithinBounds(c: UploadConfigType, calls: seq<ConfigCall>)
    requires WithinBounds(c)
    ensures WithinBounds(Run(c, calls))
    decreases |calls|
  {
    if calls != [] {
      var next := Step(c, calls[0]);
      assert WithinBounds(next);
      RunStaysWithinBounds(next, calls[1..]);
    }
  }

  lemma ReachableFromDefaultsWithinBounds(calls: seq<ConfigCall>)
    ensures WithinBounds(Run(DEFAULT_CONFIG, calls))
  {
    RunStaysWithinBounds(DEFAULT_CONFIG, calls);
  }

  /** A run that ends with a reset ends at the defaults. */
  lemma {:induction false} RunEndingInResetIsDefault(c: UploadConfigType, calls: seq<ConfigCall>)
    ensures Run(c, calls + [Reset]) == DEFAULT_CONFIG
    decreases |calls|
  {
    if calls == [] {
      assert [] + [Reset] == [Reset];
      assert [Reset][1..] == [];
    } else {
      assert (calls + [Reset])[1..] == calls[1..] + [Reset];
      RunEndingInResetIsDefault(Step(c, calls[0]), calls[1..]);
    }
  }

  /** The upper bounds are inclusive. */
  lemma UpperBoundsInclusive(c: UploadConfigType)
    ensures Updated(c, ConfigPatch(Some(500 * 1024 * 1024), Some(500))) ==
            Returns(UploadConfigType(500 * 1024 * 1024, 500))
    ensures Updated(c, ConfigPatch(Some(500 * 1024 * 1024 + 1), None)).Throws?
    ensures Updated(c, ConfigPatch(None, Some(501))).Throws?
  {
  }

  /** uploadConfigManager over the module variable `currentConfig`. */
  class UploadConfigManager {
    var currentConfig: UploadConfigType

    ghost predicate Valid()
      reads this
    {
      WithinBounds(currentConfig)
    }

    constructor ()
      ensures Valid() && currentConfig == DEFAULT_CONFIG
    {
      currentConfig := DEFAULT_CONFIG;
    }

    /** getConfig: a copy of the current configuration. */
    method GetConfig() returns (c: UploadConfigType)
      requires Valid()
      ensures c == currentConfig && WithinBounds(c)
    {
      c := currentConfig;
    }

    method GetMaxFileSize() returns (size: int)
      requires Valid()
      ensures size == currentConfig.maxFileSize && 0 < size <= MAX_FILE_SIZE_LIMIT
    {
      size := currentConfig.maxFileSize;
    }

    method GetMaxBatchCount() returns (count: int)
      requires Valid()
      ensures count == currentConfig.maxBatchCount && 0 < count <= MAX_BATCH_COUNT_LIMIT
    {
      count := currentConfig.maxBatchCount;
    }

    /** updateConfig: all checks run before the assignment, so a rejected
        patch changes nothing; an accepted one is merged and returned. */
    method UpdateConfig(patch: ConfigPatch) returns (r: Outcome<UploadConfigType>)
      requires Valid()
      modifies this
      ensures Valid()
      ensures r == Updated(old(currentConfig), patch)
      ensures currentConfig == Step(old(currentConfig), Update(patch))
      ensures r.Returns? ==> r.value == currentConfig
      ensures r.Throws? ==> currentConfig == old(currentConfig)
    {
      if patch.maxFileSize.Some? {
        if patch.maxFileSize.value <= 0 {
          return Throws(ErrorObject("maxFileSize 必须大于 0"));
        }
        if patch.maxFileSize.value > 500 * 1024 * 1024 {
          return Throws(ErrorObject("maxFileSize 不能超过 500MB"));
        }
      }
      if patch.maxBatchCount.Some? {
        if patch.maxBatchCount.value <= 0 {
          return Throws(ErrorObject("maxBatchCount 必须大于 0"));
        }
        if patch.maxBatchCount.value > 500 {
          return Throws(ErrorObject("maxBatchCount 不能超过 500"));
        }
      }
      currentConfig := Merge(currentConfig, patch);
      r := Returns(currentConfig);
    }

    /** resetConfig */
    method ResetConfig() returns (c: UploadConfigType)
      modifies this
      ensures Valid()
      ensures currentConfig == DEFAULT_CONFIG && c == currentConfig
    {
      currentConfig := DEFAULT_CONFIG;
      c := currentConfig;
    }
  }
}
