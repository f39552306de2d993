/** Runs of any number of processes over one set of durable cache records: sessions attach and detach,
    collections happen in between, writes may fail, and processes crash and start at any point. */
module CacheLeaseRuns {
  import opened Wrappers
  import opened Digraph
  import opened CacheLeases

  /** `live` counts the attachment objects of a process, by volume. A process that is gone has none. */
  datatype Process = Process(up: bool, live: map<string, nat>)
  {
    function Live(v: string): nat {
      if v in live then live[v] else 0
    }

    function With(v: string, count: nat): Process {
      this.(live := live[v := count])
    }
  }

  /** The volume whose acquisition holds the file lock, and the process that acquires it. */
  datatype Preparation = Preparation(process: nat, volume: string)

  /** Processes are never reused: each start adds one. */
  datatype Machine = Machine(records: Records, processes: seq<Process>, preparing: Option<Preparation>)
  {
    /** All live attachments of a volume. */
    function Held(v: string): nat {
      HeldBy(processes, v)
    }

    predicate Up(p: nat) {
      p < |processes| && processes[p].up
    }

    predicate MayOperate(p: nat) {
      Up(p) && preparing.None?
    }
  }

  function HeldBy(processes: seq<Process>, v: string): nat {
    if processes == [] then 0 else HeldBy(processes[..|processes| - 1], v) + processes[|processes| - 1].Live(v)
  }

  /** `saved` says whether the last write of the operation succeeded. An operation that fails before it
      changes a record or an attachment is no event. */
  datatype Event =
    | BeginAcquire(p: nat, spec: CacheSpec, binary: string, now: nat)
    | FailAcquire(saved: bool)
    | FinishAcquire(now: nat, saved: bool)
    | AttachExisting(p: nat, volume: string, now: nat)
    | Drop(p: nat, volume: string, now: nat, saved: bool)
    | UpdateSizeEstimate(p: nat, volume: string, bytes: nat)
    | Gc(p: nat, policy: GcPolicy, listing: seq<string>)
    | Crash(p: nat)
    | Start                                 // a process that does not reconcile
    | Restart                               // a process that reconciles all records first
    | FailedRestart(cleared: set<string>)   // a process that reconciles some and gives up

  /** Attachments are objects in memory, so no volume has more of them than a word can count. */
  predicate MayAttach(m: Machine, v: string) {
    m.Held(v) < WORD_MAX
  }

  predicate Prepares(m: Machine) {
    m.preparing.Some? && m.Up(m.preparing.value.process) && m.preparing.value.volume in m.records
  }

  /** An acquisition holds the file lock from its first durable write to its last, so while one is going on
      nothing else but a crash or a start without reconciliation can happen. */
  ghost predicate Enabled(m: Machine, e: Event) {
    match e
    case BeginAcquire(p, spec, binary, now) =>
      m.MayOperate(p) && ValidSpec(spec) && Acquirable(m.records, spec, binary, now)
    case FailAcquire(_) => Prepares(m)
    case FinishAcquire(_, _) => Prepares(m) && MayAttach(m, m.preparing.value.volume)
    case AttachExisting(p, v, _) => m.MayOperate(p) && v in m.records && MayAttach(m, v)
    case Drop(p, v, _, _) => m.MayOperate(p) && m.processes[p].Live(v) > 0
    case UpdateSizeEstimate(p, v, _) => m.MayOperate(p) && v in m.records
    case Gc(p, _, listing) => m.MayOperate(p) && Lists(m.records, listing)
    case Crash(p) => m.Up(p)
    case Start => true
    case Restart => m.preparing.None?
    case FailedRestart(_) => m.preparing.None?
  }

  ghost predicate Lists(records: Records, listing: seq<string>) {
    NoDuplicates(listing) && Elements(listing) == records.Keys && forall x :: x in listing ==> x in records
  }

  function Attached(m: Machine, p: nat, records: Records, v: string): Machine
    requires p < |m.processes|
  {
    m.(records := records,
       processes := m.processes[p := m.processes[p].With(v, m.processes[p].Live(v) + 1)],
       preparing := None)
  }

  const FRESH_PROCESS := Process(true, map[])

  ghost function Apply(m: Machine, e: Event): Machine
    requires Enabled(m, e)
  {
    match e
    case BeginAcquire(p, spec, binary, now) =>
      m.(records := MarkPreparing(m.records, spec, binary, now), preparing := Some(Preparation(p, spec.volumeName)))
    case FailAcquire(saved) =>
      m.(records := if saved then ClearPreparing(m.records, m.preparing.value.volume) else m.records, preparing := None)
    case FinishAcquire(now, saved) =>
      var Preparation(p, v) := m.preparing.value;
      if saved then Attached(m, p, AddAttachment(ClearPreparing(m.records, v), v, now), v) else m.(preparing := None)
    case AttachExisting(p, v, now) => Attached(m, p, AddAttachment(m.records, v, now), v)
    case Drop(p, v, now, saved) =>
      m.(records := if saved then DropAttachment(m.records, v, now) else m.records,
         processes := m.processes[p := m.processes[p].With(v, m.processes[p].Live(v) - 1)])
    case UpdateSizeEstimate(_, v, bytes) => m.(records := Resize(m.records, v, bytes))
    case Gc(_, policy, listing) => m.(records := Collected(policy, m.records, listing).records)
    case Crash(p) =>
      m.(processes := m.processes[p := Process(false, map[])],
         preparing := if m.preparing.Some? && m.preparing.value.process == p then None else m.preparing)
    case Start => m.(processes := m.processes + [FRESH_PROCESS])
    case Restart => m.(records := Reconciled(m.records), processes := m.processes + [FRESH_PROCESS])
    case FailedRestart(cleared) => m.(records := ClearedOf(m.records, cleared))
  }

  /** A run starts with no process and any records earlier ones left behind. */
  ghost predicate IsRun(run: seq<Machine>, events: seq<Event>) {
    && |run| == |events| + 1
    && run[0].processes == [] && run[0].preparing.None?
    && forall i :: 0 <= i < |events| ==> Follows(run, events, i)
  }

  ghost predicate Follows(run: seq<Machine>, events: seq<Event>, i: nat)
    requires i < |events| && i + 1 < |run|
  {
    Enabled(run[i], events[i]) && run[i + 1] == Apply(run[i], events[i])
  }

  // ---------------------------------------------------------------- counting attachments

  lemma {:induction false} HeldUpdated(processes: seq<Process>, p: nat, process: Process, v: string)
    requires p < |processes|
    ensures HeldBy(processes[p := process], v) + processes[p].Live(v) == HeldBy(processes, v) + process.Live(v)
  {
    var last := |processes| - 1;
    if p < last {
      assert processes[p := process][..last] == processes[..last][p := process];
      HeldUpdated(processes[..last], p, process, v);
    } else {
      assert processes[p := process][..last] == processes[..last];
    }
  }

  lemma HeldAdded(processes: seq<Process>, process: Process, v: string)
    ensures HeldBy(processes + [process], v) == HeldBy(processes, v) + process.Live(v)
  {
    assert (processes + [process])[..|processes|] == processes;
  }

  lemma {:induction false} HeldByNone(processes: seq<Process>, v: string)
    requires forall p :: 0 <= p < |processes| ==> processes[p].live == map[]
    ensures HeldBy(processes, v) == 0
  {
    if processes != [] {
      HeldByNone(processes[..|processes| - 1], v);
    }
  }

  /** What an event adds to the attachments of a volume: at most one, except that a crash drops all its
      process has. */
  function Gain(m: Machine, e: Event, v: string): int {
    match e
    case FinishAcquire(_, saved) => if saved && v == PreparedVolume(m) then 1 else 0
    case AttachExisting(_, volume, _) => if v == volume then 1 else 0
    case Drop(_, volume, _, _) => if v == volume then -1 else 0
    case Crash(p) => if p < |m.processes| then 0 - m.processes[p].Live(v) else 0
    case _ => 0
  }

  function PreparedVolume(m: Machine): string {
    if m.preparing.Some? then m.preparing.value.volume else ""
  }

  lemma HeldRecounted(m: Machine, p: nat, volume: string, count: nat, v: string)
    requires p < |m.processes|
    ensures HeldBy(m.processes[p := m.processes[p].With(volume, count)], v)
            == m.Held(v) + if v == volume then count - m.processes[p].Live(volume) else 0
  {
    HeldUpdated(m.processes, p, m.processes[p].With(volume, count), v);
  }

  lemma HeldAfter(m: Machine, e: Event, v: string)
    requires Enabled(m, e)
    ensures Apply(m, e).Held(v) == m.Held(v) + Gain(m, e, v)
  {
    match e
    case FinishAcquire(_, _) =>
      var Preparation(p, volume) := m.preparing.value;
      HeldRecounted(m, p, volume, m.processes[p].Live(volume) + 1, v);
    case AttachExisting(p, volume, _) => HeldRecounted(m, p, volume, m.processes[p].Live(volume) + 1, v);
    case Drop(p, volume, _, _) => HeldRecounted(m, p, volume, m.processes[p].Live(volume) - 1, v);
    case Crash(p) => HeldUpdated(m.processes, p, Process(false, map[]), v);
    case Start => HeldAdded(m.processes, FRESH_PROCESS, v);
    case Restart => HeldAdded(m.processes, FRESH_PROCESS, v);
    case _ =>
  }

  /** Whoever holds a lease can return it: at once, or after the acquisition under way has ended. Processes
      may also start and crash at any time. */
  lemma LeasesCanBeReturned(m: Machine, p: nat, v: string, now: nat) returns (freed: Machine)
    requires m.Up(p) && m.processes[p].Live(v) > 0 && (m.preparing.Some? ==> Prepares(m))
    ensures Enabled(m, Crash(p)) && Enabled(m, Start)
    ensures freed == m || (Enabled(m, FailAcquire(true)) && freed == Apply(m, FailAcquire(true)))
    ensures Enabled(freed, Drop(p, v, now, true))
    ensures var end := Apply(freed, Drop(p, v, now, true));
            end.Held(v) == m.Held(v) - 1 && end.processes[p].Live(v) == m.processes[p].Live(v) - 1
  {
    freed := if m.preparing.Some? then Apply(m, FailAcquire(true)) else m;
    assert freed.processes == m.processes;
    HeldAfter(freed, Drop(p, v, now, true), v);
  }

  // ---------------------------------------------------------------- what every run keeps

  /** Every live attachment of any process is on record: a volume has a record that counts at least its
      attachments, and the volume being prepared is marked. */
  ghost predicate Covered(m: Machine) {
    && (forall v :: CoveredAt(m, v))
    && (m.preparing.Some? ==> Prepares(m) && m.records[m.preparing.value.volume].preparingOwner.Some?)
  }

  ghost predicate CoveredAt(m: Machine, v: string) {
    m.Held(v) > 0 ==> v in m.records && m.records[v].activeAttachments >= m.Held(v)
  }

  /** A reconciliation clears no volume that some process holds. */
  ghost predicate Considerate(m: Machine, e: Event) {
    match e
    case Restart => forall v :: v in m.records ==> m.Held(v) == 0
    case FailedRestart(cleared) => forall v :: v in m.records && v in cleared ==> m.Held(v) == 0
    case _ => true
  }

  /** An event keeps all live attachments on record if and only if it is no reconciliation of a volume
      that some process holds. */
  lemma StepCoveredIffConsiderate(m: Machine, e: Event)
    requires Enabled(m, e) && Covered(m)
    ensures Covered(Apply(m, e)) <==> Considerate(m, e)
  {
    var after := Apply(m, e);
    if Considerate(m, e) {
      forall v ensures CoveredAt(after, v) {
        StepCoversVolume(m, e, v);
      }
      StepKeepsPreparation(m, e);
    } else {
      var v :| v in m.records && m.Held(v) > 0 && (e.Restart? || v in e.cleared);
      HeldAfter(m, e, v);
      assert !CoveredAt(after, v);
    }
  }

  lemma StepCoversVolume(m: Machine, e: Event, v: string)
    requires Enabled(m, e) && Considerate(m, e) && CoveredAt(m, v)
    ensures CoveredAt(Apply(m, e), v)
  {
    HeldAfter(m, e, v);
    if e.Gc? {
      CollectionSpares(e.policy, m.records, e.listing);
    }
  }

  lemma StepKeepsPreparation(m: Machine, e: Event)
    requires Enabled(m, e) && Covered(m)
    ensures var after := Apply(m, e);
            after.preparing.Some? ==>
              Prepares(after) && after.records[after.preparing.value.volume].preparingOwner.Some?
  {
  }

  /** Live attachments stay on record through failed writes and crashes, for as long as no reconciliation
      clears a volume in use. */
  lemma {:induction false} ConsiderateRunsKeepLeases(run: seq<Machine>, events: seq<Event>, n: nat)
    requires IsRun(run, events) && n < |run|
    requires forall i :: 0 <= i < n ==> Considerate(run[i], events[i])
    ensures Covered(run[n])
  {
    if n > 0 {
      ConsiderateRunsKeepLeases(run, events, n - 1);
      assert Follows(run, events, n - 1);
      StepCoveredIffConsiderate(run[n - 1], events[n - 1]);
    }
  }

  /** Reconciliations happen only when no process is up. */
  ghost predicate ReconciledAlone(run: seq<Machine>, events: seq<Event>)
    requires |run| == |events| + 1
  {
    forall i :: 0 <= i < |events| && (events[i].Restart? || events[i].FailedRestart?) ==> NoneUp(run[i])
  }

  ghost predicate NoneUp(m: Machine) {
    forall p :: 0 <= p < |m.processes| ==> !m.processes[p].up
  }

  /** Processes that are gone hold nothing. */
  ghost predicate GoneHoldNothing(m: Machine) {
    forall p :: 0 <= p < |m.processes| && !m.processes[p].up ==> m.processes[p].live == map[]
  }

  lemma {:induction false} EveryRunForgetsTheGone(run: seq<Machine>, events: seq<Event>, n: nat)
    requires IsRun(run, events) && n < |run|
    ensures GoneHoldNothing(run[n])
    ensures NoneUp(run[n]) ==> forall v :: run[n].Held(v) == 0
  {
    if n > 0 {
      EveryRunForgetsTheGone(run, events, n - 1);
      assert Follows(run, events, n - 1);
      StepForgetsTheGone(run[n - 1], events[n - 1]);
    }
    if NoneUp(run[n]) {
      forall v ensures run[n].Held(v) == 0 {
        HeldByNone(run[n].processes, v);
      }
    }
  }

  lemma StepForgetsTheGone(m: Machine, e: Event)
    requires Enabled(m, e) && GoneHoldNothing(m)
    ensures GoneHoldNothing(Apply(m, e))
  {
  }

  /** In every state of every run that reconciles only when no process is up, failed writes, crashes and
      any number of other processes included, live attachments are on record. */
  lemma {:induction false} EveryRunKeepsLeases(run: seq<Machine>, events: seq<Event>, n: nat)
    requires IsRun(run, events) && n < |run| && ReconciledAlone(run, events)
    ensures Covered(run[n])
  {
    forall i | 0 <= i < n ensures Considerate(run[i], events[i]) {
      EveryRunForgetsTheGone(run, events, i);
    }
    ConsiderateRunsKeepLeases(run, events, n);
  }

  /** No collection removes a volume with live attachments in any process or touches its record, however
      the collection ends; and one that succeeds meets its budget exactly when that was determined. */
  lemma CollectionSparesLiveVolumes(m: Machine, p: nat, policy: GcPolicy, listing: seq<string>)
    requires Covered(m) && Enabled(m, Gc(p, policy, listing))
    ensures var swept, after := Collected(policy, m.records, listing), Apply(m, Gc(p, policy, listing));
            forall v :: m.Held(v) > 0 ==>
              v !in swept.gone && v in m.records && v in after.records && after.records[v] == m.records[v]
    ensures forall x :: x in ByAge(m.records, listing) <==> x in m.records
    ensures var order, after := ByAge(m.records, listing), Apply(m, Gc(p, policy, listing));
            Collected(policy, m.records, listing).result.Ok? ==>
              (BudgetMet(policy, order, after.records) <==> WillMeetBudget(Collection(policy, m.records, order)))
  {
    CollectionSpares(policy, m.records, listing);
    forall v | m.Held(v) > 0 ensures v in m.records && !m.records[v].Idle() {
      assert CoveredAt(m, v);
    }
    if Collected(policy, m.records, listing).result.Ok? {
      BudgetMetIff(policy, m.records, listing);
    }
  }

  /** What a reconciliation beside a live session leads to: the volume is on record as idle, and the next
      collection whose age limit it has passed removes it while it is in use. */
  lemma ReconcilingBesideASessionLosesIt(
      m: Machine, v: string, p: nat, cutoff: nat, maxTotalBytes: nat, listing: seq<string>)
    requires Enabled(m, Restart) && Covered(m) && m.Held(v) > 0
    requires var after := Apply(m, Restart);
             && after.MayOperate(p) && Lists(after.records, listing)
             && v in after.records && after.records[v].lastUsedAtMs < cutoff
    ensures var policy, after := GcPolicy(_ => Gone, cutoff, maxTotalBytes), Apply(m, Restart);
            && Apply(after, Gc(p, policy, listing)).Held(v) > 0
            && v !in Apply(after, Gc(p, policy, listing)).records
  {
    var policy, after := GcPolicy(_ => Gone, cutoff, maxTotalBytes), Apply(m, Restart);
    HeldAfter(m, Restart, v);
    var n := CollectionMeaning(policy, after.records, listing);
    CollectionSpares(policy, after.records, listing);
    var swept := Collected(policy, after.records, listing);
    assert swept.result.Ok?;
    if v in swept.records {
      assert swept.records[v] == after.records[v];
      assert policy.Expires(swept.records[v]) && swept.records[v].Idle();
    }
  }

  // ---------------------------------------------------------------- exact leases

  /** Records count exactly the attachments of all processes, none lacks a record, and the volume being
      prepared is marked and no other. */
  ghost predicate Exact(m: Machine) {
    && (forall v :: ExactAt(m, v))
    && (m.preparing.Some? ==> Prepares(m))
  }

  ghost predicate ExactAt(m: Machine, v: string) {
    if v in m.records then
      && m.records[v].activeAttachments == m.Held(v)
      && (m.records[v].preparingOwner.Some? <==> m.preparing.Some? && m.preparing.value.volume == v)
    else
      m.Held(v) == 0
  }

  ghost predicate HoldsNothing(m: Machine, p: nat) {
    p < |m.processes| ==> forall v :: v in m.processes[p].live ==> m.processes[p].live[v] == 0
  }

  /** No write is lost, no process dies with attachments or in the middle of an acquisition, and no volume
      in use is reconciled. */
  ghost predicate Lossless(m: Machine, e: Event) {
    match e
    case FailAcquire(saved) => saved
    case FinishAcquire(_, saved) => saved
    case Drop(_, _, _, saved) => saved
    case Crash(p) => HoldsNothing(m, p) && (m.preparing.Some? ==> m.preparing.value.process != p)
    case _ => Considerate(m, e)
  }

  /** An event keeps exact leases exact if and only if it loses nothing. */
  lemma StepExactIffLossless(m: Machine, e: Event)
    requires Enabled(m, e) && Exact(m)
    ensures Exact(Apply(m, e)) <==> Lossless(m, e)
  {
    if Lossless(m, e) {
      forall v ensures ExactAt(Apply(m, e), v) {
        LosslessKeepsExactAt(m, e, v);
      }
      assert Apply(m, e).preparing.Some? ==> Prepares(Apply(m, e));
    } else {
      LossBreaksExact(m, e);
    }
  }

  lemma LosslessKeepsExactAt(m: Machine, e: Event, v: string)
    requires Enabled(m, e) && Lossless(m, e) && ExactAt(m, v)
    ensures ExactAt(Apply(m, e), v)
  {
    HeldAfter(m, e, v);
    if e.Gc? {
      CollectionSpares(e.policy, m.records, e.listing);
    }
  }

  lemma LossBreaksExact(m: Machine, e: Event)
    requires Enabled(m, e) && Exact(m) && !Lossless(m, e)
    ensures !Exact(Apply(m, e))
  {
    var v := LostVolume(m, e);
    assert ExactAt(m, v);
    HeldAfter(m, e, v);
    assert !ExactAt(Apply(m, e), v);
  }

  ghost function LostVolume(m: Machine, e: Event): string
    requires Enabled(m, e) && !Lossless(m, e)
  {
    match e
    case Drop(_, volume, _, _) => volume
    case Restart => var v :| v in m.records && m.Held(v) > 0; v
    case FailedRestart(cleared) => var v :| v in m.records && v in cleared && m.Held(v) > 0; v
    case Crash(p) =>
      if HoldsNothing(m, p) then PreparedVolume(m)
      else var v :| v in m.processes[p].live && m.processes[p].live[v] != 0; v
    case _ => PreparedVolume(m)
  }

  /** A reconciliation with nothing held makes the leases exact, whatever was lost before. */
  lemma RestartMakesExact(m: Machine)
    requires Enabled(m, Restart) && forall v :: m.Held(v) == 0
    ensures Exact(Apply(m, Restart))
  {
    forall v ensures ExactAt(Apply(m, Restart), v) {
      HeldAfter(m, Restart, v);
    }
  }

  /** From a reconciliation with nothing held, leases stay exact for as long as nothing is lost. */
  lemma {:induction false} LosslessRunsAreExact(run: seq<Machine>, events: seq<Event>, from: nat, n: nat)
    requires IsRun(run, events) && from < n < |run|
    requires events[from].Restart? && forall v :: run[from].Held(v) == 0
    requires forall i :: from < i < n ==> Lossless(run[i], events[i])
    ensures Exact(run[n])
  {
    assert Follows(run, events, n - 1);
    if n == from + 1 {
      RestartMakesExact(run[from]);
    } else {
      LosslessRunsAreExact(run, events, from, n - 1);
      StepExactIffLossless(run[n - 1], events[n - 1]);
    }
  }

  /** With exact leases, and no acquisition under way, what a collection may remove is exactly what no
      session holds. */
  lemma ExactIdleIffFree(m: Machine, v: string)
    requires Exact(m) && m.preparing.None? && v in m.records
    ensures m.records[v].Idle() <==> m.Held(v) == 0
  {
    assert ExactAt(m, v);
  }

  /** Forgetting all leases keeps them exact if and only if there are none, so reconciliation belongs where
      no session runs. */
  lemma ReconcileIsExactIffNothingHeld(m: Machine)
    requires Exact(m)
    ensures Exact(m.(records := Reconciled(m.records))) <==> m.preparing.None? && forall v :: m.Held(v) == 0
  {
    var after := m.(records := Reconciled(m.records));
    assert m.preparing.Some? ==> !ExactAt(after, m.preparing.value.volume);
    if Exact(after) {
      forall v ensures m.Held(v) == 0 {
        assert ExactAt(after, v);
      }
    }
    if m.preparing.None? && forall v :: m.Held(v) == 0 {
      forall v ensures ExactAt(after, v) {
        assert ExactAt(m, v);
      }
    }
  }
}
