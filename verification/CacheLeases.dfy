/** Durable records of cache volumes: leases count live attachments across crashes and restarts, and
    garbage collection spares whatever is attached or being prepared. */
module CacheLeases {
  import opened Wrappers
  import opened Digraph

  datatype TrustClass = Download | Toolchain | ProjectExecutable | LspIndex

  /** What a record must match before a session may attach. */
  datatype Identity = Identity(
    logicalId: string,
    target: string,
    projectId: string,
    environmentLockSha256: string,
    provenanceSha256: string,
    trust: TrustClass,
    maxBytes: Option<nat>)

  datatype CacheSpec = CacheSpec(volumeName: string, identity: Identity, preparingSession: string)

  datatype CacheRecord = CacheRecord(
    runtimeBinary: string,
    identity: Identity,
    sizeEstimateBytes: nat,
    activeAttachments: nat,
    preparingOwner: Option<string>,
    createdAtMs: nat,
    lastUsedAtMs: nat)
  {
    predicate Idle() {
      activeAttachments == 0 && preparingOwner.None?
    }

    predicate OverQuota() {
      identity.maxBytes.Some? && sizeEstimateBytes > identity.maxBytes.value
    }
  }

  /** The record files, by volume name. */
  type Records = map<string, CacheRecord>

  datatype CacheError =
    | InvalidSpecification
    | StorageUnavailable
    | RuntimeUnavailable
    | UnreadableRecord
    | IdentityMismatch
    | WrongRuntime
    | SaveFailed
    | PreparationFailed
    | UnknownVolume
    | RemovalFailed(volumeName: string)
    | RecordRemains(volumeName: string)

  // ---------------------------------------------------------------- specifications

  /** The Unicode white space that trimming removes. */
  predicate IsWhitespace(c: char) {
    var n := c as int;
    || 0x9 <= n <= 0xD || n in {0x20, 0x85, 0xA0, 0x1680, 0x2028, 0x2029, 0x202F, 0x205F, 0x3000}
    || 0x2000 <= n <= 0x200A
  }

  predicate Blank(s: string) {
    forall i :: 0 <= i < |s| ==> IsWhitespace(s[i])
  }

  predicate ValidSpec(spec: CacheSpec) {
    && !Blank(spec.volumeName)
    && !Blank(spec.identity.logicalId)
    && "/" <= spec.identity.target
    && !Blank(spec.preparingSession)
    && spec.identity.maxBytes != Some(0)
  }

  /** A string without the white space at its ends. */
  function Trimmed(s: string): string {
    if s != "" && IsWhitespace(s[0]) then Trimmed(s[1..])
    else if s != "" && IsWhitespace(s[|s| - 1]) then Trimmed(s[..|s| - 1])
    else s
  }

  lemma {:induction false} BlankIffNothingLeft(s: string)
    ensures Blank(s) <==> Trimmed(s) == ""
    decreases |s|
  {
    if s != "" && IsWhitespace(s[0]) {
      BlankIffNothingLeft(s[1..]);
      assert forall i :: 0 < i < |s| ==> s[i] == s[1..][i - 1];
    } else if s != "" && IsWhitespace(s[|s| - 1]) {
      BlankIffNothingLeft(s[..|s| - 1]);
    }
  }

  method ValidateSpec(spec: CacheSpec) returns (ok: bool)
    ensures ok <==> ValidSpec(spec)
  {
    BlankIffNothingLeft(spec.volumeName);
    BlankIffNothingLeft(spec.identity.logicalId);
    BlankIffNothingLeft(spec.preparingSession);
    if Trimmed(spec.volumeName) == "" || Trimmed(spec.identity.logicalId) == ""
       || spec.identity.target == "" || spec.identity.target[0] != '/' || Trimmed(spec.preparingSession) == ""
    {
      return false;
    }
    return !(spec.identity.maxBytes.Some? && spec.identity.maxBytes.value == 0);
  }

  // ---------------------------------------------------------------- what storage and runtime answer

  /** An acquisition's outside world: are the locks taken, which runtime is there, can the record be read,
      do its first and its last write succeed, and is the volume ensured in between? */
  datatype AcquireIo = AcquireIo(
    locked: bool,
    binary: Option<string>,
    readable: bool,
    marked: bool,
    ensured: bool,
    settled: bool)

  /** The same for an operation that changes one record. A failed write leaves the record as it was. */
  datatype RecordIo = RecordIo(locked: bool, readable: bool, saved: bool) {
    predicate Works() {
      locked && readable && saved
    }
  }

  // ---------------------------------------------------------------- record updates

  function RecordFor(records: Records, spec: CacheSpec, binary: string, now: nat): CacheRecord {
    var record :=
      if spec.volumeName in records then records[spec.volumeName]
      else CacheRecord(binary, spec.identity, 0, 0, None, now, now);
    if record.runtimeBinary == "" then record.(runtimeBinary := binary) else record
  }

  /** May the volume be attached for this specification on this runtime? */
  predicate Acquirable(records: Records, spec: CacheSpec, binary: string, now: nat) {
    var record := RecordFor(records, spec, binary, now);
    record.identity == spec.identity && record.runtimeBinary == binary
  }

  /** The first durable write of an acquisition: the volume is marked as being prepared. */
  function MarkPreparing(records: Records, spec: CacheSpec, binary: string, now: nat): Records {
    records[spec.volumeName := RecordFor(records, spec, binary, now).(preparingOwner := Some(spec.preparingSession))]
  }

  function ClearPreparing(records: Records, volume: string): Records
    requires volume in records
  {
    records[volume := records[volume].(preparingOwner := None)]
  }

  function AddAttachment(records: Records, volume: string, now: nat): Records
    requires volume in records
  {
    records[volume := records[volume].(
      activeAttachments := SaturatingAdd(records[volume].activeAttachments, 1), lastUsedAtMs := now)]
  }

  function DropAttachment(records: Records, volume: string, now: nat): Records {
    if volume !in records then records
    else records[volume := records[volume].(
      activeAttachments := SaturatingSub(records[volume].activeAttachments, 1), lastUsedAtMs := now)]
  }

  function Resize(records: Records, volume: string, bytes: nat): Records
    requires volume in records
  {
    records[volume := records[volume].(sizeEstimateBytes := bytes)]
  }

  function Cleared(record: CacheRecord): CacheRecord {
    record.(activeAttachments := 0, preparingOwner := None)
  }

  /** Leases and owners of the named volumes are forgotten. */
  function ClearedOf(records: Records, names: set<string>): Records {
    map v | v in records :: if v in names then Cleared(records[v]) else records[v]
  }

  function Reconciled(records: Records): Records {
    ClearedOf(records, records.Keys)
  }

  // ---------------------------------------------------------------- eviction order

  /** Insertion after every record used no later, so that equal times keep their listing order. */
  function InsertByAge(records: Records, v: string, sorted: seq<string>): (r: seq<string>)
    requires v in records && forall x :: x in sorted ==> x in records
    ensures forall x :: x in r <==> x == v || x in sorted
  {
    if sorted == [] then [v]
    else if records[v].lastUsedAtMs >= records[sorted[0]].lastUsedAtMs then
      [sorted[0]] + InsertByAge(records, v, sorted[1..])
    else [v] + sorted
  }

  /** The listed volumes, least recently used first. */
  function ByAge(records: Records, listing: seq<string>): (r: seq<string>)
    requires forall x :: x in listing ==> x in records
    ensures forall x :: x in r <==> x in listing
  {
    if listing == [] then []
    else InsertByAge(records, listing[|listing| - 1], ByAge(records, listing[..|listing| - 1]))
  }

  ghost predicate SortedByAge(records: Records, order: seq<string>)
    requires forall x :: x in order ==> x in records
  {
    forall i, j :: 0 <= i < j < |order| ==> NoYounger(records, order, i, j)
  }

  ghost predicate NoYounger(records: Records, order: seq<string>, i: nat, j: nat)
    requires i < |order| && j < |order| && forall x :: x in order ==> x in records
  {
    records[order[i]].lastUsedAtMs <= records[order[j]].lastUsedAtMs
  }

  lemma {:induction false} InsertByAgeSorts(records: Records, v: string, sorted: seq<string>)
    requires v in records && (forall x :: x in sorted ==> x in records)
    requires SortedByAge(records, sorted) && NoDuplicates(sorted) && v !in sorted
    ensures SortedByAge(records, InsertByAge(records, v, sorted)) && NoDuplicates(InsertByAge(records, v, sorted))
  {
    if sorted == [] {
    } else if records[v].lastUsedAtMs >= records[sorted[0]].lastUsedAtMs {
      TailSorted(records, sorted);
      InsertByAgeSorts(records, v, sorted[1..]);
      PrependSorts(records, sorted[0], InsertByAge(records, v, sorted[1..]));
    } else {
      TailSorted(records, sorted);
      PrependSorts(records, v, sorted);
    }
  }

  lemma TailSorted(records: Records, sorted: seq<string>)
    requires sorted != [] && (forall x :: x in sorted ==> x in records)
    requires SortedByAge(records, sorted) && NoDuplicates(sorted)
    ensures SortedByAge(records, sorted[1..]) && NoDuplicates(sorted[1..]) && sorted[0] !in sorted[1..]
    ensures forall x :: x in sorted ==> records[sorted[0]].lastUsedAtMs <= records[x].lastUsedAtMs
  {
    forall i, j | 0 <= i < j < |sorted| - 1 ensures NoYounger(records, sorted[1..], i, j) {
      assert NoYounger(records, sorted, i + 1, j + 1);
    }
    forall x | x in sorted ensures records[sorted[0]].lastUsedAtMs <= records[x].lastUsedAtMs {
      var k :| 0 <= k < |sorted| && sorted[k] == x;
      assert k > 0 ==> NoYounger(records, sorted, 0, k);
    }
  }

  lemma PrependSorts(records: Records, v: string, rest: seq<string>)
    requires v in records && (forall x :: x in rest ==> x in records)
    requires SortedByAge(records, rest) && NoDuplicates(rest) && v !in rest
    requires forall x :: x in rest ==> records[v].lastUsedAtMs <= records[x].lastUsedAtMs
    ensures forall x :: x in [v] + rest ==> x in records
    ensures SortedByAge(records, [v] + rest) && NoDuplicates([v] + rest)
  {
    var r := [v] + rest;
    forall i, j | 0 <= i < j < |r| ensures r[i] != r[j] && NoYounger(records, r, i, j) {
      assert r[j] == rest[j - 1];
      if i > 0 {
        assert r[i] == rest[i - 1] && NoYounger(records, rest, i - 1, j - 1);
      }
    }
  }

  lemma {:induction false} ByAgeSorts(records: Records, listing: seq<string>)
    requires (forall x :: x in listing ==> x in records) && NoDuplicates(listing)
    ensures SortedByAge(records, ByAge(records, listing)) && NoDuplicates(ByAge(records, listing))
  {
    if listing != [] {
      var earlier := listing[..|listing| - 1];
      ByAgeSorts(records, earlier);
      InsertByAgeSorts(records, listing[|listing| - 1], ByAge(records, earlier));
    }
  }

  /** The size estimates of the listed records that still exist. */
  function TotalSize(records: Records, order: seq<string>): nat {
    if order == [] then 0
    else TotalSize(records, order[..|order| - 1])
         + if order[|order| - 1] in records then records[order[|order| - 1]].sizeEstimateBytes else 0
  }

  // ---------------------------------------------------------------- collection

  /** What becomes of a volume to be removed: it and its record go, the runtime keeps it, or the volume
      goes and its record file cannot be deleted. */
  datatype Removal = Gone | VolumeStays | RecordStays

  datatype GcPolicy = GcPolicy(removal: string -> Removal, cutoff: nat, maxTotalBytes: nat)
  {
    /** Over age or over its own quota: removed whatever the total. */
    predicate Expires(record: CacheRecord) {
      record.lastUsedAtMs < cutoff || record.OverQuota()
    }

    /** An idle record with none of the three reasons for removal. */
    predicate Keeps(record: CacheRecord, total: nat) {
      !Expires(record) && total <= maxTotalBytes
    }
  }

  /** The records a collection leaves, the volumes it removed from the runtime, and its answer. */
  datatype Swept = Swept(records: Records, gone: seq<string>, result: Result<seq<string>, CacheError>)

  /** The collection from position `i` on; the first removal that fails ends it. */
  function Sweep(
      policy: GcPolicy, records: Records, order: seq<string>, i: nat, total: nat, removed: seq<string>): Swept
    requires i <= |order|
    decreases |order| - i
  {
    if i == |order| then Swept(records, removed, Ok(removed))
    else
      var v := order[i];
      if v !in records || !records[v].Idle() || policy.Keeps(records[v], total) then
        Sweep(policy, records, order, i + 1, total, removed)
      else
        match policy.removal(v)
        case VolumeStays => Swept(records, removed, Err(RemovalFailed(v)))
        case RecordStays => Swept(records, removed + [v], Err(RecordRemains(v)))
        case Gone =>
          Sweep(policy, records - {v}, order, i + 1, SaturatingSub(total, records[v].sizeEstimateBytes), removed + [v])
  }

  /** The size estimates are summed in 64 bits. */
  function WrappedSize(records: Records, order: seq<string>): nat {
    TotalSize(records, order) % (WORD_MAX + 1)
  }

  function Collected(policy: GcPolicy, records: Records, listing: seq<string>): Swept
    requires forall x :: x in listing ==> x in records
  {
    var order := ByAge(records, listing);
    Sweep(policy, records, order, 0, WrappedSize(records, order), [])
  }

  // ---------------------------------------------------------------- the collection, known beforehand

  /** A collection about to start. All that it will do is determined here, by the records before it. */
  datatype Collection = Collection(policy: GcPolicy, before: Records, order: seq<string>)
  {
    predicate IdleAt(i: nat)
      requires i < |order|
    {
      order[i] in before && before[order[i]].Idle()
    }

    function SizeAt(i: nat): nat
      requires i < |order| && IdleAt(i)
    {
      before[order[i]].sizeEstimateBytes
    }

    /** The size of the idle records among the first `n`. */
    function IdleSize(n: nat): nat
      requires n <= |order|
    {
      if n == 0 then 0 else IdleSize(n - 1) + if IdleAt(n - 1) then SizeAt(n - 1) else 0
    }

    /** What is left of the wrapped total once all idle records before `i` are removed. */
    function TotalAt(i: nat): nat
      requires i <= |order|
    {
      SaturatingSub(WrappedSize(before, order), IdleSize(i))
    }

    /** Would an idle record here be kept, all idle ones before it being gone? */
    predicate StaysAt(i: nat)
      requires i < |order|
    {
      IdleAt(i) && policy.Keeps(before[order[i]], TotalAt(i))
    }

    function FirstStay(i: nat): (m: nat)
      requires i <= |order|
      ensures i <= m <= |order| && (m < |order| ==> StaysAt(m))
      ensures forall k :: i <= k < m ==> !StaysAt(k)
      decreases |order| - i
    {
      if i == |order| || StaysAt(i) then i else FirstStay(i + 1)
    }

    /** The first idle record to be kept. Before it every idle record goes; from it on only those that
        expire, the total being within the budget. */
    function Turn(): nat {
      FirstStay(0)
    }

    predicate Goes(k: nat)
      requires k < |order|
    {
      IdleAt(k) && (k < Turn() || policy.Expires(before[order[k]]))
    }

    predicate FailsAt(k: nat)
      requires k < |order|
    {
      Goes(k) && policy.removal(order[k]) != Gone
    }

    /** The volumes that go among the first `n`, in order. */
    function GoneOf(n: nat): seq<string>
      requires n <= |order|
    {
      if n == 0 then [] else GoneOf(n - 1) + if Goes(n - 1) then [order[n - 1]] else []
    }

    function GoneSize(n: nat): nat
      requires n <= |order|
    {
      if n == 0 then 0 else GoneSize(n - 1) + if Goes(n - 1) then SizeAt(n - 1) else 0
    }

    /** `records` is what `before` leaves when those that go among the first `n` are gone. */
    ghost predicate Leaves(n: nat, records: Records) {
      && n <= |order|
      && records.Keys <= before.Keys
      && (forall v :: v in records ==> records[v] == before[v])
      && (forall k :: 0 <= k < |order| ==> LeavesAt(n, records, k))
    }

    ghost predicate LeavesAt(n: nat, records: Records, k: nat)
      requires k < |order|
    {
      order[k] in records <==> !(k < n && Goes(k))
    }

    /** The collection went on to position `n`: all the way if it succeeded, else to the first volume
        that should go and did not go cleanly. */
    ghost predicate Ends(n: nat, swept: Swept) {
      && Leaves(n, swept.records)
      && match swept.result
         case Ok(removed) => n == |order| && removed == swept.gone == GoneOf(n)
         case Err(error) =>
           && n < |order| && FailsAt(n)
           && match policy.removal(order[n])
              case Gone => false
              case VolumeStays => error == RemovalFailed(order[n]) && swept.gone == GoneOf(n)
              case RecordStays => error == RecordRemains(order[n]) && swept.gone == GoneOf(n) + [order[n]]
    }

    /** The total carried at position `i`. */
    ghost predicate Carries(i: nat, total: nat) {
      i <= |order| && if i <= Turn() then total == TotalAt(i) else total <= policy.maxTotalBytes
    }
  }

  ghost predicate StillListed(records: Records, order: seq<string>, i: nat) {
    forall k :: i <= k < |order| ==> order[k] in records
  }

  /** Every record once, least recently used first. */
  ghost predicate Ordered(before: Records, order: seq<string>) {
    && (forall x :: x in order <==> x in before)
    && SortedByAge(before, order)
    && NoDuplicates(order)
  }

  lemma LeavesNext(c: Collection, i: nat, records: Records)
    requires i < |c.order| && NoDuplicates(c.order) && c.Leaves(i, records)
    ensures c.order[i] in records
    ensures c.Leaves(i + 1, if c.Goes(i) then records - {c.order[i]} else records)
  {
    var after, next := if c.Goes(i) then records - {c.order[i]} else records, i + 1;
    assert c.LeavesAt(i, records, i);
    forall k | 0 <= k < |c.order| ensures c.LeavesAt(next, after, k) {
      assert c.LeavesAt(i, records, k);
      assert k != i ==> c.order[k] != c.order[i];
    }
  }

  /** At each position the loop removes exactly what was to go. */
  lemma LoopDecides(c: Collection, i: nat, records: Records, total: nat)
    requires i < |c.order| && c.order[i] in c.before && c.Leaves(i, records) && c.order[i] in records
    requires c.Carries(i, total)
    ensures c.Goes(i) <==> records[c.order[i]].Idle() && !c.policy.Keeps(records[c.order[i]], total)
    ensures !c.Goes(i) ==> c.Carries(i + 1, total)
    ensures c.Goes(i) ==> c.Carries(i + 1, SaturatingSub(total, records[c.order[i]].sizeEstimateBytes))
  {
    assert i < c.Turn() ==> !c.StaysAt(i);
  }

  lemma SweepDecides(c: Collection, i: nat, records: Records, total: nat)
    requires i < |c.order| && c.order[i] in c.before && c.Leaves(i, records) && c.order[i] in records
    requires c.Carries(i, total)
    ensures var v, swept := c.order[i], Sweep(c.policy, records, c.order, i, total, c.GoneOf(i));
            if !c.Goes(i) then swept == Sweep(c.policy, records, c.order, i + 1, total, c.GoneOf(i + 1))
            else match c.policy.removal(v)
                 case VolumeStays => swept == Swept(records, c.GoneOf(i), Err(RemovalFailed(v)))
                 case RecordStays => swept == Swept(records, c.GoneOf(i) + [v], Err(RecordRemains(v)))
                 case Gone =>
                   swept == Sweep(c.policy, records - {v}, c.order, i + 1,
                                  SaturatingSub(total, records[v].sizeEstimateBytes), c.GoneOf(i + 1))
  {
    LoopDecides(c, i, records, total);
    assert !c.Goes(i) ==> c.GoneOf(i + 1) == c.GoneOf(i);
  }

  ghost predicate Enumerates(c: Collection) {
    NoDuplicates(c.order) && StillListed(c.before, c.order, 0)
  }

  /** One turn of the loop: it ends here, or goes on from what the records determine. */
  lemma SweepStep(c: Collection, records: Records, i: nat, total: nat, swept: Swept)
    requires i < |c.order| && Enumerates(c) && c.Leaves(i, records) && c.Carries(i, total)
    requires swept == Sweep(c.policy, records, c.order, i, total, c.GoneOf(i))
    ensures c.order[i] in records
    ensures c.FailsAt(i) ==> EndsAt(c, i, swept)
    ensures !c.FailsAt(i) ==>
              var (after, left) := if c.Goes(i)
                then (records - {c.order[i]}, SaturatingSub(total, records[c.order[i]].sizeEstimateBytes))
                else (records, total);
              && c.Leaves(i + 1, after) && c.Carries(i + 1, left)
              && swept == Sweep(c.policy, after, c.order, i + 1, left, c.GoneOf(i + 1))
  {
    LeavesNext(c, i, records);
    LoopDecides(c, i, records, total);
    SweepDecides(c, i, records, total);
    if c.FailsAt(i) {
      EndsHere(c, records, i, swept);
    }
  }

  /** The loop carries out exactly what was determined beforehand. */
  lemma {:induction false} SweepEnds(c: Collection, records: Records, i: nat, total: nat, swept: Swept) returns (n: nat)
    requires Enumerates(c) && c.Leaves(i, records) && c.Carries(i, total)
    requires swept == Sweep(c.policy, records, c.order, i, total, c.GoneOf(i))
    ensures EndsAt(c, n, swept)
    decreases |c.order| - i
  {
    n := i;
    if i < |c.order| {
      SweepStep(c, records, i, total, swept);
      if !c.FailsAt(i) {
        if c.Goes(i) {
          n := SweepEnds(c, records - {c.order[i]}, i + 1,
                         SaturatingSub(total, records[c.order[i]].sizeEstimateBytes), swept);
        } else {
          n := SweepEnds(c, records, i + 1, total, swept);
        }
      }
    }
  }

  ghost predicate EndsAt(c: Collection, n: nat, swept: Swept) {
    c.Ends(n, swept)
  }

  lemma EndsHere(c: Collection, records: Records, i: nat, swept: Swept)
    requires c.Leaves(i, records) && i < |c.order| && c.Goes(i)
    requires match c.policy.removal(c.order[i])
             case Gone => false
             case VolumeStays => swept == Swept(records, c.GoneOf(i), Err(RemovalFailed(c.order[i])))
             case RecordStays => swept == Swept(records, c.GoneOf(i) + [c.order[i]], Err(RecordRemains(c.order[i])))
    ensures EndsAt(c, i, swept)
  {
  }

  /** A collection does exactly what the records before it determine. */
  lemma CollectionMeaning(policy: GcPolicy, before: Records, listing: seq<string>) returns (n: nat)
    requires NoDuplicates(listing) && Elements(listing) == before.Keys
    ensures forall x :: x in listing <==> x in before
    ensures Ordered(before, ByAge(before, listing))
    ensures Collection(policy, before, ByAge(before, listing)).Ends(n, Collected(policy, before, listing))
  {
    assert forall x :: x in listing <==> x in Elements(listing);
    ByAgeSorts(before, listing);
    var c := Collection(policy, before, ByAge(before, listing));
    assert c.IdleSize(0) == 0 && c.GoneOf(0) == [];
    forall k | 0 <= k < |c.order| ensures c.LeavesAt(0, before, k) {
      assert c.order[k] in c.order;
    }
    assert StillListed(before, c.order, 0);
    n := SweepEnds(c, before, 0, c.TotalAt(0), Collected(policy, before, listing));
  }

  // ---------------------------------------------------------------- what a collection spares

  /** What a collection leaves behind: only idle records go, and what stays is unchanged. */
  ghost predicate OnlyIdleRemoved(before: Records, after: Records) {
    && after.Keys <= before.Keys
    && (forall v :: v in after ==> after[v] == before[v])
    && (forall v :: v in before && v !in after ==> before[v].Idle())
  }

  /** A record removed although an older idle one was kept was over its own quota. */
  ghost predicate KeptOlderMeansOverQuota(before: Records, after: Records, order: seq<string>)
    requires forall x :: x in order ==> x in before
  {
    forall i, j :: 0 <= i < j < |order| ==> QuotaExplains(before, after, order, i, j)
  }

  ghost predicate QuotaExplains(before: Records, after: Records, order: seq<string>, i: nat, j: nat)
    requires i < |order| && j < |order| && forall x :: x in order ==> x in before
  {
    order[i] in after && before[order[i]].Idle() && order[j] !in after ==> before[order[j]].OverQuota()
  }

  lemma {:induction false} GoneWereIdle(c: Collection, n: nat, v: string)
    requires n <= |c.order| && v in c.GoneOf(n)
    ensures v in c.before && c.before[v].Idle()
  {
    if v !in c.GoneOf(n - 1) {
      assert c.Goes(n - 1) && v == c.order[n - 1];
    } else {
      GoneWereIdle(c, n - 1, v);
    }
  }

  /** However it ends, a collection removes only idle volumes and records, the oldest first except for
      quotas; one that succeeds keeps no idle record over age or quota. */
  lemma CollectionSpares(policy: GcPolicy, before: Records, listing: seq<string>)
    requires NoDuplicates(listing) && Elements(listing) == before.Keys
    ensures forall x :: x in listing <==> x in before
    ensures forall x :: x in ByAge(before, listing) <==> x in before
    ensures var swept := Collected(policy, before, listing);
            && OnlyIdleRemoved(before, swept.records)
            && (forall v :: v in swept.gone ==> v in before && before[v].Idle())
            && KeptOlderMeansOverQuota(before, swept.records, ByAge(before, listing))
            && (swept.result.Ok? ==>
                  forall v :: v in swept.records && swept.records[v].Idle() ==> !policy.Expires(swept.records[v]))
  {
    var n := CollectionMeaning(policy, before, listing);
    var c, swept := Collection(policy, before, ByAge(before, listing)), Collected(policy, before, listing);
    forall v | v in before ensures
        && (v !in swept.records ==> before[v].Idle())
        && (swept.result.Ok? && v in swept.records && before[v].Idle() ==> !policy.Expires(before[v]))
    {
      assert v in c.order;
      var k :| 0 <= k < |c.order| && c.order[k] == v;
      assert c.LeavesAt(n, swept.records, k);
    }
    forall v | v in swept.gone ensures v in before && before[v].Idle() {
      if v in c.GoneOf(n) {
        GoneWereIdle(c, n, v);
      } else {
        assert v == c.order[n];
      }
    }
    forall i, j | 0 <= i < j < |c.order| ensures QuotaExplains(before, swept.records, c.order, i, j) {
      assert c.LeavesAt(n, swept.records, i) && c.LeavesAt(n, swept.records, j);
      assert NoYounger(before, c.order, i, j);
    }
  }

  // ---------------------------------------------------------------- when the budget is met

  /** The remaining total is within the budget, or nothing idle is left to remove. */
  ghost predicate BudgetMet(policy: GcPolicy, order: seq<string>, after: Records) {
    TotalSize(after, order) <= policy.maxTotalBytes || forall v :: v in after ==> !after[v].Idle()
  }

  /** Checkable beforehand: every idle record goes, or what goes brings the true total within the budget. */
  predicate WillMeetBudget(c: Collection) {
    c.Turn() == |c.order| || TotalSize(c.before, c.order) - c.GoneSize(|c.order|) <= c.policy.maxTotalBytes
  }

  lemma {:induction false} TotalLeft(c: Collection, after: Records, n: nat)
    requires Ordered(c.before, c.order) && c.Leaves(|c.order|, after) && n <= |c.order|
    ensures TotalSize(after, c.order[..n]) == TotalSize(c.before, c.order[..n]) - c.GoneSize(n)
  {
    if n > 0 {
      TotalLeft(c, after, n - 1);
      assert c.order[..n][..n - 1] == c.order[..n - 1];
      assert c.order[n - 1] in c.order;
      assert c.LeavesAt(|c.order|, after, n - 1);
    }
  }

  lemma LeftMeetsBudgetIff(c: Collection, after: Records)
    requires Ordered(c.before, c.order) && c.Leaves(|c.order|, after)
    ensures BudgetMet(c.policy, c.order, after) <==> WillMeetBudget(c)
  {
    TotalLeft(c, after, |c.order|);
    assert c.order[..|c.order|] == c.order;
    var m := c.Turn();
    if m < |c.order| {
      assert c.LeavesAt(|c.order|, after, m);
      assert c.StaysAt(m) && !c.Goes(m);
    } else {
      forall v | v in after ensures !after[v].Idle() {
        assert v in c.order;
        var k :| 0 <= k < |c.order| && c.order[k] == v;
        assert c.LeavesAt(|c.order|, after, k);
      }
    }
  }

  /** A collection that succeeds meets its budget if and only if that was to be expected, for any records
      and sizes, sums past a word included. */
  lemma BudgetMetIff(policy: GcPolicy, before: Records, listing: seq<string>)
    requires NoDuplicates(listing) && Elements(listing) == before.Keys
    requires forall x :: x in listing ==> x in before
    requires Collected(policy, before, listing).result.Ok?
    ensures forall x :: x in ByAge(before, listing) <==> x in before
    ensures BudgetMet(policy, ByAge(before, listing), Collected(policy, before, listing).records)
            <==> WillMeetBudget(Collection(policy, before, ByAge(before, listing)))
  {
    var n := CollectionMeaning(policy, before, listing);
    LeftMeetsBudgetIff(Collection(policy, before, ByAge(before, listing)), Collected(policy, before, listing).records);
  }

  lemma {:induction false} GoneBeforeTurn(c: Collection, n: nat)
    requires n <= |c.order|
    ensures n <= c.Turn() ==> c.GoneSize(n) == c.IdleSize(n)
    ensures n >= c.Turn() ==> c.GoneSize(n) >= c.IdleSize(c.Turn())
  {
    if n > 0 {
      GoneBeforeTurn(c, n - 1);
    }
  }

  /** While the size estimates sum to a machine word at most, every collection that succeeds meets its budget. */
  lemma BudgetMetWithinWord(policy: GcPolicy, before: Records, listing: seq<string>)
    requires NoDuplicates(listing) && Elements(listing) == before.Keys
    requires forall x :: x in listing ==> x in before
    requires Collected(policy, before, listing).result.Ok?
    requires TotalSize(before, ByAge(before, listing)) <= WORD_MAX
    ensures BudgetMet(policy, ByAge(before, listing), Collected(policy, before, listing).records)
  {
    WordMeetsBudget(Collection(policy, before, ByAge(before, listing)));
    BudgetMetIff(policy, before, listing);
  }

  lemma WordMeetsBudget(c: Collection)
    requires TotalSize(c.before, c.order) <= WORD_MAX
    ensures WillMeetBudget(c)
  {
    assert WrappedSize(c.before, c.order) == TotalSize(c.before, c.order);
    GoneBeforeTurn(c, |c.order|);
    assert c.Turn() < |c.order| ==> c.StaysAt(c.Turn());
  }

  /** A record used at or after the cutoff goes only over its own quota or over the budget. */
  lemma RecentlyUsedGoesForSize(policy: GcPolicy, before: Records, listing: seq<string>, v: string)
    requires NoDuplicates(listing) && Elements(listing) == before.Keys
    requires forall x :: x in listing ==> x in before
    requires v in Collected(policy, before, listing).gone && v in before && before[v].lastUsedAtMs >= policy.cutoff
    ensures var quota := before[v].identity.maxBytes;
            || (quota.Some? && before[v].sizeEstimateBytes > quota.value)
            || TotalSize(before, ByAge(before, listing)) % (WORD_MAX + 1) > policy.maxTotalBytes
  {
    var n := CollectionMeaning(policy, before, listing);
    var c := Collection(policy, before, ByAge(before, listing));
    var k := GonePosition(c, n, Collected(policy, before, listing), v);
    RecentGoesForSize(c, k);
  }

  lemma RecentGoesForSize(c: Collection, k: nat)
    requires k < |c.order| && c.Goes(k) && c.before[c.order[k]].lastUsedAtMs >= c.policy.cutoff
    ensures c.before[c.order[k]].OverQuota() || WrappedSize(c.before, c.order) > c.policy.maxTotalBytes
  {
    assert k < c.Turn() ==> !c.StaysAt(k);
  }

  lemma GonePosition(c: Collection, n: nat, swept: Swept, v: string) returns (k: nat)
    requires c.Ends(n, swept) && v in swept.gone
    ensures k < |c.order| && c.order[k] == v && c.Goes(k)
  {
    if v in c.GoneOf(n) {
      k := GoneAt(c, n, v);
    } else {
      k := n;
    }
  }

  lemma {:induction false} GoneAt(c: Collection, n: nat, v: string) returns (k: nat)
    requires n <= |c.order| && v in c.GoneOf(n)
    ensures k < n && c.order[k] == v && c.Goes(k)
  {
    if v in c.GoneOf(n - 1) {
      k := GoneAt(c, n - 1, v);
    } else {
      k := n - 1;
    }
  }

  /** Releasing a lease renews its volume: released at or after the cutoff, it is not removed for age. */
  lemma ReleasedIsNotOverAge(policy: GcPolicy, records: Records, v: string, now: nat, listing: seq<string>)
    requires v in records && now >= policy.cutoff
    requires NoDuplicates(listing) && Elements(listing) == records.Keys
    ensures var after := DropAttachment(records, v, now);
            && after.Keys == records.Keys && (forall x :: x in listing ==> x in after)
            && after[v] == records[v].(activeAttachments := Max(records[v].activeAttachments - 1, 0),
                                       lastUsedAtMs := now)
            && (v in Collected(policy, after, listing).gone ==>
                  || (records[v].identity.maxBytes.Some?
                      && records[v].sizeEstimateBytes > records[v].identity.maxBytes.value)
                  || TotalSize(after, ByAge(after, listing)) % (WORD_MAX + 1) > policy.maxTotalBytes)
  {
    var after := DropAttachment(records, v, now);
    assert after.Keys == records.Keys;
    forall x | x in listing ensures x in after {
      assert x in Elements(listing);
    }
    if v in Collected(policy, after, listing).gone {
      RecentlyUsedGoesForSize(policy, after, listing, v);
    }
  }

  const HALF_WORD: nat := 0x8000_0000_0000_0000

  /** Past a word the budget can be missed: two idle volumes of half a word each sum to zero, so the
      collection keeps both, whatever the budget. */
  lemma WrappedTotalHidesExcess(policy: GcPolicy, record: CacheRecord)
    requires record.Idle() && !policy.Expires(record) && record.sizeEstimateBytes == HALF_WORD
    requires policy.maxTotalBytes <= WORD_MAX
    ensures var records: Records := map["a" := record, "b" := record];
            && Collected(policy, records, ["a", "b"]).result.Ok?
            && !BudgetMet(policy, ByAge(records, ["a", "b"]), Collected(policy, records, ["a", "b"]).records)
  {
    var records: Records, listing := map["a" := record, "b" := record], ["a", "b"];
    assert Elements(listing) == records.Keys;
    TwoByAge(records, record);
    var n := CollectionMeaning(policy, records, listing);
    NeitherGoes(Collection(policy, records, listing), record);
    BudgetMetIff(policy, records, listing);
  }

  lemma NeitherGoes(c: Collection, record: CacheRecord)
    requires c.before == map["a" := record, "b" := record] && c.order == ["a", "b"]
    requires record.Idle() && !c.policy.Expires(record) && record.sizeEstimateBytes == HALF_WORD
    ensures c.Turn() == 0 && !c.Goes(0) && !c.Goes(1) && c.GoneSize(2) == 0
    ensures TotalSize(c.before, c.order) == WORD_MAX + 1
  {
    assert c.order[..1] == ["a"] && ["a"][..0] == [];
    assert TotalSize(c.before, ["a"]) == HALF_WORD;
    assert c.IdleSize(0) == 0 && c.StaysAt(0);
    assert c.GoneSize(0) == 0 && c.GoneSize(1) == 0;
  }

  lemma TwoByAge(records: Records, record: CacheRecord)
    requires records == map["a" := record, "b" := record]
    ensures ByAge(records, ["a", "b"]) == ["a", "b"]
  {
    assert ["a", "b"][..1] == ["a"] && ["a"][..0] == [];
    assert ByAge(records, ["a"]) == ["a"];
    assert ByAge(records, ["a", "b"]) == ["a"] + InsertByAge(records, "b", ["a"][1..]);
  }

  // ---------------------------------------------------------------- the manager

  /** Does an acquisition get as far as its first write? */
  predicate MayMark(records: Records, spec: CacheSpec, io: AcquireIo, now: nat) {
    ValidSpec(spec) && io.locked && io.binary.Some? && io.readable && Acquirable(records, spec, io.binary.value, now)
  }

  lemma StillListedNext(records: Records, order: seq<string>, i: nat)
    requires NoDuplicates(order) && i < |order| && StillListed(records, order, i)
    ensures order[i] in records && StillListed(records, order, i + 1) && StillListed(records - {order[i]}, order, i + 1)
  {
  }

  lemma ClearedNext(records: Records, listing: seq<string>, i: nat)
    requires i < |listing| && NoDuplicates(listing) && listing[i] in records
    ensures ClearedOf(records, Elements(listing[..i + 1]))
            == ClearedOf(records, Elements(listing[..i]))[listing[i] := Cleared(records[listing[i]])]
    ensures ClearedOf(records, Elements(listing[..i]))[listing[i]] == records[listing[i]]
  {
    assert listing[..i + 1] == listing[..i] + [listing[i]];
    assert Elements(listing[..i + 1]) == Elements(listing[..i]) + {listing[i]};
  }

  class CacheManager {
    var records: Records

    constructor (records: Records)
      ensures this.records == records
    {
      this.records := records;
    }

    /** A failed last write leaves the volume marked as being prepared. */
    method Acquire(spec: CacheSpec, io: AcquireIo, now: nat, later: nat) returns (r: Result<(), CacheError>)
      modifies this
      ensures r.Ok? <==> MayMark(old(records), spec, io, now) && io.marked && io.ensured && io.settled
      ensures !(MayMark(old(records), spec, io, now) && io.marked) ==> records == old(records)
      ensures MayMark(old(records), spec, io, now) && io.marked ==>
                var marked := MarkPreparing(old(records), spec, io.binary.value, now);
                records == if !io.settled then marked
                           else if !io.ensured then ClearPreparing(marked, spec.volumeName)
                           else AddAttachment(ClearPreparing(marked, spec.volumeName), spec.volumeName, later)
      ensures r == Err(PreparationFailed) <==>
                MayMark(old(records), spec, io, now) && io.marked && !io.ensured && io.settled
      ensures r == Err(SaveFailed) <==> MayMark(old(records), spec, io, now) && !(io.marked && io.settled)
    {
      var valid := ValidateSpec(spec);
      if !valid {
        return Err(InvalidSpecification);
      }
      if !io.locked {
        return Err(StorageUnavailable);
      }
      if io.binary.None? {
        return Err(RuntimeUnavailable);
      }
      if !io.readable {
        return Err(UnreadableRecord);
      }
      var volume, binary := spec.volumeName, io.binary.value;
      var record :=
        if volume in records then records[volume]
        else CacheRecord(binary, spec.identity, 0, 0, None, now, now);
      if record.runtimeBinary == "" {
        record := record.(runtimeBinary := binary);
      }
      if record.identity != spec.identity {
        return Err(IdentityMismatch);
      }
      if record.runtimeBinary != binary {
        return Err(WrongRuntime);
      }
      record := record.(preparingOwner := Some(spec.preparingSession));
      if !io.marked {
        return Err(SaveFailed);
      }
      records := records[volume := record];
      record := record.(preparingOwner := None);
      if io.ensured {
        record := record.(activeAttachments := SaturatingAdd(record.activeAttachments, 1), lastUsedAtMs := later);
      }
      if !io.settled {
        return Err(SaveFailed);
      }
      records := records[volume := record];
      return if io.ensured then Ok(()) else Err(PreparationFailed);
    }

    method AttachExisting(volume: string, io: RecordIo, now: nat) returns (r: Result<(), CacheError>)
      modifies this
      ensures r.Ok? <==> io.Works() && volume in old(records)
      ensures r == Err(UnknownVolume) <==> io.locked && volume !in old(records)
      ensures records == if r.Ok? then AddAttachment(old(records), volume, now) else old(records)
    {
      if !io.locked {
        return Err(StorageUnavailable);
      }
      if volume !in records {
        return Err(UnknownVolume);
      }
      if !io.readable {
        return Err(UnreadableRecord);
      }
      var record := records[volume];
      record := record.(activeAttachments := SaturatingAdd(record.activeAttachments, 1), lastUsedAtMs := now);
      if !io.saved {
        return Err(SaveFailed);
      }
      records := records[volume := record];
      return Ok(());
    }

    method Detach(volume: string, io: RecordIo, now: nat) returns (r: Result<(), CacheError>)
      modifies this
      ensures r.Ok? <==> io.locked && (volume in old(records) ==> io.Works())
      ensures records == if r.Ok? then DropAttachment(old(records), volume, now) else old(records)
    {
      if !io.locked {
        return Err(StorageUnavailable);
      }
      if volume !in records {
        return Ok(());
      }
      if !io.readable {
        return Err(UnreadableRecord);
      }
      var record := records[volume];
      record := record.(activeAttachments := SaturatingSub(record.activeAttachments, 1), lastUsedAtMs := now);
      if !io.saved {
        return Err(SaveFailed);
      }
      records := records[volume := record];
      return Ok(());
    }

    /** The attachment's `Drop`: a detach that fails goes unnoticed and keeps its lease on record. */
    method Drop(volume: string, io: RecordIo, now: nat)
      modifies this
      ensures records == if io.Works() then DropAttachment(old(records), volume, now) else old(records)
    {
      var _ := Detach(volume, io, now);
    }

    method UpdateSizeEstimate(volume: string, io: RecordIo, bytes: nat) returns (r: Result<(), CacheError>)
      modifies this
      ensures r.Ok? <==> io.Works() && volume in old(records)
      ensures records == if r.Ok? then Resize(old(records), volume, bytes) else old(records)
    {
      if !io.locked {
        return Err(StorageUnavailable);
      }
      if volume !in records {
        return Err(UnknownVolume);
      }
      if !io.readable {
        return Err(UnreadableRecord);
      }
      if !io.saved {
        return Err(SaveFailed);
      }
      records := records[volume := records[volume].(sizeEstimateBytes := bytes)];
      return Ok(());
    }

    /** `broken` says which records cannot be read or written; the first ends the reconciliation. */
    method Reconcile(
        listing: seq<string>, locked: bool, broken: string -> bool)
        returns (r: Result<(), CacheError>, ghost done: nat)
      requires NoDuplicates(listing) && Elements(listing) == records.Keys
      modifies this
      ensures done <= |listing| && records == ClearedOf(old(records), Elements(listing[..done]))
      ensures r.Ok? <==> locked && forall v :: v in listing ==> !broken(v)
      ensures r.Ok? ==> records == Reconciled(old(records))
    {
      done := 0;
      ghost var before := records;
      assert Elements(listing[..0]) == {};
      if !locked {
        return Err(StorageUnavailable), 0;
      }
      for i := 0 to |listing|
        invariant records == ClearedOf(before, Elements(listing[..i]))
        invariant forall k :: 0 <= k < i ==> !broken(listing[k])
      {
        var volume := listing[i];
        if broken(volume) {
          return Err(SaveFailed), i;
        }
        assert volume in Elements(listing);
        ClearedNext(before, listing, i);
        records := records[volume := records[volume].(activeAttachments := 0, preparingOwner := None)];
      }
      assert listing[..|listing|] == listing;
      return Ok(()), |listing|;
    }

    /** Collects idle volumes, least recently used first, over one snapshot of the records. `ready` says
        whether the locks are taken and every record can be read. */
    method Gc(
        policy: GcPolicy, listing: seq<string>, ready: bool)
        returns (r: Result<seq<string>, CacheError>, ghost gone: seq<string>)
      requires NoDuplicates(listing) && Elements(listing) == records.Keys
      modifies this
      ensures forall x :: x in listing ==> x in old(records)
      ensures ready ==> Swept(records, gone, r) == Collected(policy, old(records), listing)
      ensures !ready ==> records == old(records) && gone == [] && r == Err(StorageUnavailable)
    {
      assert forall x :: x in listing <==> x in Elements(listing);
      if !ready {
        return Err(StorageUnavailable), [];
      }
      ByAgeSorts(records, listing);
      r, gone := CollectInOrder(policy, ByAge(records, listing));
    }

    /** The collection loop. */
    method CollectInOrder(
        policy: GcPolicy, order: seq<string>)
        returns (r: Result<seq<string>, CacheError>, ghost gone: seq<string>)
      requires NoDuplicates(order) && forall x :: x in order ==> x in records
      modifies this
      ensures Swept(records, gone, r) == Sweep(policy, old(records), order, 0, WrappedSize(old(records), order), [])
    {
      var total: nat := WrappedTotal(order);
      var removed: seq<string> := [];
      ghost var swept := Sweep(policy, records, order, 0, total, removed);
      for i := 0 to |order|
        invariant StillListed(records, order, i)
        invariant Sweep(policy, records, order, i, total, removed) == swept
      {
        var volume := order[i];
        var record := records[volume];
        StillListedNext(records, order, i);
        if record.activeAttachments != 0 || record.preparingOwner.Some? {
          continue;
        }
        var overAge := record.lastUsedAtMs < policy.cutoff;
        var overBudget := total > policy.maxTotalBytes;
        var quota := record.identity.maxBytes;
        var overQuota := quota.Some? && record.sizeEstimateBytes > quota.value;
        if !overAge && !overBudget && !overQuota {
          continue;
        }
        var removal := policy.removal(volume);
        if removal == VolumeStays {
          return Err(RemovalFailed(volume)), removed;
        }
        total := SaturatingSub(total, record.sizeEstimateBytes);
        if removal == RecordStays {
          return Err(RecordRemains(volume)), removed + [volume];
        }
        records := records - {volume};
        removed := removed + [volume];
      }
      return Ok(removed), removed;
    }

    /** The 64-bit sum of the size estimates; it wraps. */
    method WrappedTotal(order: seq<string>) returns (total: nat)
      ensures total == WrappedSize(records, order)
    {
      total := 0;
      for i := 0 to |order|
        invariant total == WrappedSize(records, order[..i])
      {
        assert order[..i + 1][..i] == order[..i];
        if order[i] in records {
          total := (total + records[order[i]].sizeEstimateBytes) % (WORD_MAX + 1);
        }
      }
      assert order[..|order|] == order;
    }
  }
}
