/** The aggregate budget for local evidence files (internal/source/secure.go): the accounting, given
    a resolved file identity and size. */
module SourceBudget {
  import opened Ordering

  newtype int64 = x: int | -0x8000_0000_0000_0000 <= x < 0x8000_0000_0000_0000

  /** What looking up a path yields: a regular file below the root, or a reason to refuse it. */
  datatype Lookup = Missing | Found(identity: string, size: int64)

  datatype Answer = Registered(identity: string) | LookupFailed | TooManyFiles | TooManyBytes

  datatype Limits = Limits(files: nat, bytes: nat)

  /** The recorded sizes by identity. */
  type Account = map<string, int64>

  ghost function Total(files: Account): int {
    if files == map[] then 0
    else
      var k :| k in files;
      files[k] as int + Total(files - {k})
  }

  /** Which entry is taken off first makes no difference. */
  lemma {:induction false} TotalWithout(files: Account, k: string)
    requires k in files
    ensures Total(files) == files[k] as int + Total(files - {k})
    decreases |files|
  {
    var m :| m in files && Total(files) == files[m] as int + Total(files - {m});
    if m != k {
      TotalWithout(files - {m}, k);
      TotalWithout(files - {k}, m);
      assert files - {m} - {k} == files - {k} - {m};
    }
  }

  lemma TotalAdd(files: Account, k: string, size: int64)
    requires k !in files
    ensures Total(files[k := size]) == Total(files) + size as int
  {
    TotalWithout(files[k := size], k);
    assert files[k := size] - {k} == files;
  }

  /** Every file within the limits, and no negative size on record. */
  ghost predicate Within(files: Account, limits: Limits) {
    && |files| <= limits.files && 0 <= Total(files) <= limits.bytes
    && forall k :: k in files ==> 0 <= files[k]
  }

  /** One call on an account: a known file is accepted as it is, a new one if it fits. */
  ghost predicate Fits(files: Account, limits: Limits, call: Lookup) {
    call.Found? && (call.identity in files
      || (|files| < limits.files && 0 <= call.size && Total(files) + call.size as int <= limits.bytes))
  }

  ghost function After(files: Account, limits: Limits, call: Lookup): Account {
    if Fits(files, limits, call) && call.identity !in files then files[call.identity := call.size] else files
  }

  class Budget {
    const maxFiles: int64
    const maxBytes: int64
    var files: map<string, int64>
    var totalBytes: int64

    ghost predicate Valid()
      reads this
    {
      maxFiles > 0 && maxBytes > 0 && Within(files, Bounds()) && totalBytes as int == Total(files)
    }

    ghost function Bounds(): Limits
      requires maxFiles > 0 && maxBytes > 0
    {
      Limits(maxFiles as int, maxBytes as int)
    }

    constructor (maxFiles: int64, maxBytes: int64)
      requires maxFiles > 0 && maxBytes > 0
      ensures Valid() && files == map[] && this.maxFiles == maxFiles && this.maxBytes == maxBytes
    {
      this.maxFiles, this.maxBytes := maxFiles, maxBytes;
      files, totalBytes := map[], 0;
    }

    /** Registers a file. The arithmetic on 64 bits never overflows. */
    method Register(call: Lookup) returns (r: Answer)
      requires Valid()
      modifies this
      ensures Valid() && files == After(old(files), Bounds(), call)
      ensures r.Registered? <==> Fits(old(files), Bounds(), call)
      ensures r.Registered? ==> r.identity == call.identity && r.identity in files
      ensures !r.Registered? ==> files == old(files) && totalBytes == old(totalBytes)
      ensures r.TooManyFiles? ==> |files| == maxFiles as int && call.Found? && call.identity !in files
    {
      if call.Missing? {
        return LookupFailed;
      }
      if call.identity !in files {
        if |files| >= maxFiles as int {
          return TooManyFiles;
        }
        if call.size < 0 || totalBytes > maxBytes - call.size {
          return TooManyBytes;
        }
        TotalAdd(files, call.identity, call.size);
        files := files[call.identity := call.size];
        totalBytes := totalBytes + call.size;
      }
      r := Registered(call.identity);
    }
  }

  /** A budget needs positive limits and a root directory that can be opened. */
  method NewBudget(rootOpens: bool, maxFiles: int64, maxBytes: int64) returns (r: Option<Budget>)
    ensures r.Some? <==> rootOpens && maxFiles > 0 && maxBytes > 0
    ensures r.Some? ==> fresh(r.value) && r.value.Valid() && r.value.files == map[]
    ensures r.Some? ==> r.value.maxFiles == maxFiles && r.value.maxBytes == maxBytes
  {
    if maxFiles <= 0 || maxBytes <= 0 || !rootOpens {
      return None;
    }
    var b := new Budget(maxFiles, maxBytes);
    r := Some(b);
  }

  // ----- whole runs

  ghost function Run(files: Account, limits: Limits, calls: seq<Lookup>): Account
    decreases |calls|
  {
    if calls == [] then files else Run(After(files, limits, calls[0]), limits, calls[1..])
  }

  ghost predicate AllFit(files: Account, limits: Limits, calls: seq<Lookup>)
    decreases |calls|
  {
    calls != [] ==> Fits(files, limits, calls[0]) && AllFit(After(files, limits, calls[0]), limits, calls[1..])
  }

  lemma AfterWithin(files: Account, limits: Limits, call: Lookup)
    requires Within(files, limits)
    ensures Within(After(files, limits, call), limits) && files.Keys <= After(files, limits, call).Keys
  {
    if Fits(files, limits, call) && call.identity !in files {
      TotalAdd(files, call.identity, call.size);
    }
  }

  /** Whatever is registered, in any order and however often: the limits hold, and a file once
      recorded keeps its first size. */
  lemma {:induction false} RunStaysWithin(files: Account, limits: Limits, calls: seq<Lookup>)
    requires Within(files, limits)
    ensures Within(Run(files, limits, calls), limits)
    ensures forall k :: k in files ==> k in Run(files, limits, calls) && Run(files, limits, calls)[k] == files[k]
    decreases |calls|
  {
    if calls != [] {
      AfterWithin(files, limits, calls[0]);
      RunStaysWithin(After(files, limits, calls[0]), limits, calls[1..]);
    }
  }

  /** The distinct files of a run, each with the size it had first. */
  function FirstSizes(files: Account, calls: seq<Lookup>): Account
    decreases |calls|
  {
    if calls == [] then files
    else if calls[0].Found? && calls[0].identity !in files then
      FirstSizes(files[calls[0].identity := calls[0].size], calls[1..])
    else FirstSizes(files, calls[1..])
  }

  ghost predicate Plain(calls: seq<Lookup>) {
    forall i :: 0 <= i < |calls| ==> calls[i].Found? && 0 <= calls[i].size
  }

  lemma {:induction false} FirstSizesGrow(files: Account, calls: seq<Lookup>)
    requires Plain(calls)
    ensures |files| <= |FirstSizes(files, calls)| && Total(files) <= Total(FirstSizes(files, calls))
    ensures files.Keys <= FirstSizes(files, calls).Keys
    decreases |calls|
  {
    if calls != [] {
      var next := if calls[0].identity in files then files else files[calls[0].identity := calls[0].size];
      if calls[0].identity !in files { TotalAdd(files, calls[0].identity, calls[0].size); }
      FirstSizesGrow(next, calls[1..]);
    }
  }

  /** A run of existing files is accepted as a whole exactly when its distinct files fit together;
      the order and the repetitions do not matter. */
  lemma {:induction false} AcceptedExactlyWhenItFits(files: Account, limits: Limits, calls: seq<Lookup>)
    requires Within(files, limits) && Plain(calls)
    ensures AllFit(files, limits, calls) <==> Within(FirstSizes(files, calls), limits)
    ensures AllFit(files, limits, calls) ==> Run(files, limits, calls) == FirstSizes(files, calls)
    decreases |calls|
  {
    if calls != [] {
      var call, rest := calls[0], calls[1..];
      if Fits(files, limits, call) {
        AfterWithin(files, limits, call);
        AcceptedExactlyWhenItFits(After(files, limits, call), limits, rest);
      } else {
        var next := files[call.identity := call.size];
        TotalAdd(files, call.identity, call.size);
        FirstSizesGrow(next, rest);
      }
    }
  }
}
