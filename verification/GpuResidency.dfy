/**
 * One model process per GPU lease (packages/gemma-director/src/owned-llama-lifecycle.ts,
 * gemma-director-model.ts and packages/gpu-lease/src/index.ts).
 *
 * Several owners, each a director adapter with its lifecycle, compete for one kernel lock. Every step
 * is one atomic block between two awaits; outcomes of processes, timers and files are free choices.
 */
module GpuResidency {
  import opened Wrappers

  /**
   * The lease as one owner sees it. `Locked` and `Cleared` are inside `acquire`, before and after the
   * quarantine marker was inspected; `Lost` is a lock holder
   * that could not be stopped.
   */
  datatype Lease = NoLease | Locked | Cleared | Leased | Quarantined | Freed | Lost

  /** `lifecycle.start()`: `Armed` has read every spawn operand and only the final check is left. */
  datatype Start = NotStarted | Preparing | Armed | Loading | Settled

  datatype Child = NoChild | Live | Exited

  /** `release()`: everything but `Open` means the spawn gate is closed. */
  datatype Release = Open | FirstReap | AwaitingStart | SecondReap | Cleaning | Clean | Unproven | Ended

  datatype Owner = Owner(lease: Lease, start: Start, child: Child, release: Release, gone: bool)

  /** `lock` is who holds the kernel lock; `marker` is who wrote the durable quarantine marker. */
  datatype Machine = Machine(lock: Option<nat>, marker: Option<nat>, owners: seq<Owner>)

  datatype Action =
    // acquiring the lease
    | TakeLock | InspectMarker | GrantLease | FailAcquire | LoseHolder
    // starting the runtime
    | BeginStart | FailStart | ReadOperands | CheckAndSpawn | StartSettles
    // the process itself
    | ChildExits
    // releasing
    | BeginRelease | ReapDone | ReapFails | StartSettled | SettleTimesOut | CleanupDone | CleanupFails
    | WriteMarker | FreeLease | LoseLease
    // the owner process ends
    | OwnerExits

  predicate May(m: Machine, i: nat, action: Action) {
    i < |m.owners| &&
    var o := m.owners[i];
    if o.gone then action == ChildExits && o.child.Live? else
    match action
    case TakeLock => o.lease.NoLease? && m.lock.None?
    case InspectMarker => o.lease.Locked? && m.marker.None?
    case GrantLease => o.lease.Cleared?
    case FailAcquire => o.lease.Locked? || o.lease.Cleared?
    case LoseHolder => o.lease.Locked? || o.lease.Cleared?
    case BeginStart => o.start.NotStarted? && (o.lease in {Leased, Quarantined, Freed} || (o.lease.Lost? && o.release.Ended?))
    case FailStart => o.start.Preparing?
    case ReadOperands => o.start.Preparing?
    case CheckAndSpawn => o.start.Armed?
    case StartSettles => o.start.Loading?
    case ChildExits => o.child.Live?
    case BeginRelease => o.release.Open?
    case ReapDone => (o.release.FirstReap? || o.release.SecondReap?) && !o.child.Live?
    case ReapFails => (o.release.FirstReap? || o.release.SecondReap?) && o.child.Live?
    case StartSettled => o.release.AwaitingStart? && (o.start.NotStarted? || o.start.Settled?)
    case SettleTimesOut => o.release.AwaitingStart?
    case CleanupDone => o.release.Cleaning?
    case CleanupFails => o.release.Cleaning?
    case WriteMarker => o.release.Unproven? && o.lease.Leased?
    case FreeLease => o.release.Clean?
    case LoseLease => o.release.Clean? && o.lease.Leased?
    case OwnerExits => !o.child.Live? || (o.lease.Quarantined? && m.marker == Some(i))
  }

  function Set(m: Machine, i: nat, o: Owner): Machine
    requires i < |m.owners|
  {
    m.(owners := m.owners[i := o])
  }

  function SpawnAllowed(o: Owner): bool {
    o.release.Open?
  }

  function Next(m: Machine, i: nat, action: Action): Machine
    requires May(m, i, action)
  {
    var o := m.owners[i];
    match action
    case TakeLock => Set(m, i, o.(lease := Locked)).(lock := Some(i))
    case InspectMarker => Set(m, i, o.(lease := Cleared))
    case GrantLease => Set(m, i, o.(lease := Leased))
    case FailAcquire => Set(m, i, o.(lease := NoLease)).(lock := None)
    case LoseHolder => Set(m, i, o.(lease := Lost))
    case BeginStart => Set(m, i, o.(start := if SpawnAllowed(o) then Preparing else Settled))
    case FailStart => Set(m, i, o.(start := Settled))
    case ReadOperands => Set(m, i, o.(start := Armed))
    case CheckAndSpawn => Set(m, i, if SpawnAllowed(o) then o.(start := Loading, child := Live) else o.(start := Settled))
    case StartSettles => Set(m, i, o.(start := Settled))
    case ChildExits => Set(m, i, o.(child := Exited))
    case BeginRelease => Set(m, i, o.(release := FirstReap))
    case ReapDone => Set(m, i, o.(release := if o.release.FirstReap? then AwaitingStart else Cleaning))
    case ReapFails => Set(m, i, o.(release := Unproven))
    case StartSettled => Set(m, i, o.(release := SecondReap))
    case SettleTimesOut => Set(m, i, o.(release := Unproven))
    case CleanupDone => Set(m, i, o.(release := Clean))
    case CleanupFails => Set(m, i, o.(release := Unproven))
    case WriteMarker => Set(m, i, o.(lease := Quarantined)).(marker := if m.marker.None? then Some(i) else m.marker)
    case FreeLease =>
      if o.lease.Leased? then Set(m, i, o.(lease := Freed, release := Ended)).(lock := None)
      else Set(m, i, o.(release := Ended))
    case LoseLease => Set(m, i, o.(lease := Lost, release := Ended))
    case OwnerExits =>
      Set(m, i, o.(gone := true)).(lock := if m.lock == Some(i) then None else m.lock)
  }

  datatype Step = Step(owner: nat, action: Action)

  predicate Initial(m: Machine) {
    && m.lock.None? && m.marker.None?
    && forall i | 0 <= i < |m.owners| :: m.owners[i] == Owner(NoLease, NotStarted, NoChild, Open, false)
  }

  predicate Takes(m: Machine, step: Step, after: Machine) {
    May(m, step.owner, step.action) && after == Next(m, step.owner, step.action)
  }

  ghost predicate IsRun(machines: seq<Machine>, steps: seq<Step>) {
    && |machines| == |steps| + 1 && Initial(machines[0])
    && forall n | 0 <= n < |steps| :: Takes(machines[n], steps[n], machines[n + 1])
  }

  lemma RunStep(machines: seq<Machine>, steps: seq<Step>, n: nat) returns (owner: nat, action: Action)
    requires IsRun(machines, steps) && n < |steps|
    ensures owner == steps[n].owner && action == steps[n].action
    ensures May(machines[n], owner, action) && machines[n + 1] == Next(machines[n], owner, action)
  {
    owner, action := steps[n].owner, steps[n].action;
    assert Takes(machines[n], steps[n], machines[n + 1]);
  }

  // ---------------------------------------------------------------- the invariant

  predicate HoldsLock(o: Owner) {
    !o.gone && o.lease in {Locked, Cleared, Leased, Quarantined, Lost}
  }

  predicate GoodOwner(m: Machine, i: nat)
    requires i < |m.owners|
  {
    var o := m.owners[i];
    && (HoldsLock(o) ==> m.lock == Some(i))
    && (o.start in {Preparing, Armed} && o.release.Open? ==> o.lease.Leased?)
    && (o.child.Live? ==> o.lease in {Leased, Quarantined})
    && (o.release in {AwaitingStart, SecondReap, Cleaning, Clean, Ended} ==> !o.child.Live?)
    && (o.lease.Freed? ==> o.release.Ended?)
    && (o.lease.Quarantined? ==> m.marker == Some(i) && !o.release.Open?)
    && (o.gone && o.child.Live? ==> m.marker == Some(i))
    && (m.marker.Some? && m.marker != Some(i) && !o.gone ==> o.lease !in {Cleared, Leased, Quarantined})
  }

  ghost predicate Inv(m: Machine) {
    && (forall i | 0 <= i < |m.owners| :: GoodOwner(m, i))
    && (m.marker.Some? ==> m.marker.value < |m.owners| && m.owners[m.marker.value].lease.Quarantined?)
  }

  /** One step changes one owner; the others keep what they have. */
  lemma StepKeepsOwner(m: Machine, i: nat, action: Action)
    requires Inv(m) && May(m, i, action)
    ensures GoodOwner(Next(m, i, action), i)
  {
    assert GoodOwner(m, i);
    if m.marker.Some? {
      assert GoodOwner(m, m.marker.value);
    }
  }

  lemma StepKeepsOthers(m: Machine, i: nat, action: Action, k: nat)
    requires Inv(m) && May(m, i, action) && k < |m.owners| && k != i
    ensures GoodOwner(Next(m, i, action), k)
  {
    assert GoodOwner(m, i);
    assert GoodOwner(m, k);
  }

  lemma StepKeepsInv(m: Machine, i: nat, action: Action)
    requires Inv(m) && May(m, i, action)
    ensures Inv(Next(m, i, action))
  {
    var after := Next(m, i, action);
    forall k | 0 <= k < |after.owners| ensures GoodOwner(after, k) {
      if k == i {
        StepKeepsOwner(m, i, action);
      } else {
        StepKeepsOthers(m, i, action, k);
      }
    }
    assert GoodOwner(m, i);
  }

  lemma {:induction false} EveryMachineIsGood(machines: seq<Machine>, steps: seq<Step>, n: nat)
    requires IsRun(machines, steps) && n < |machines|
    ensures Inv(machines[n]) && |machines[n].owners| == |machines[0].owners|
  {
    if n > 0 {
      EveryMachineIsGood(machines, steps, n - 1);
      var i, action := RunStep(machines, steps, n - 1);
      StepKeepsInv(machines[n - 1], i, action);
    }
  }

  // ---------------------------------------------------------------- residency

  /** A live model process implies that its owner still holds the kernel lock, or died quarantined. */
  lemma LiveMeansLeased(machines: seq<Machine>, steps: seq<Step>, n: nat, i: nat)
    requires IsRun(machines, steps) && n < |machines| && i < |machines[n].owners|
    requires machines[n].owners[i].child.Live?
    ensures machines[n].owners[i].lease in {Leased, Quarantined}
    ensures if machines[n].owners[i].gone then machines[n].marker == Some(i) else machines[n].lock == Some(i)
  {
    EveryMachineIsGood(machines, steps, n);
    assert GoodOwner(machines[n], i);
  }

  /** Two owners' model processes are never alive together. */
  lemma NeverResidentTogether(machines: seq<Machine>, steps: seq<Step>, n: nat, i: nat, j: nat)
    requires IsRun(machines, steps) && n < |machines| && i < |machines[n].owners| && j < |machines[n].owners|
    requires machines[n].owners[i].child.Live? && machines[n].owners[j].child.Live?
    ensures i == j
  {
    EveryMachineIsGood(machines, steps, n);
    assert GoodOwner(machines[n], i) && GoodOwner(machines[n], j);
  }

  /** A freed lease means the runtime was proved gone. */
  lemma FreedMeansGone(machines: seq<Machine>, steps: seq<Step>, n: nat, i: nat)
    requires IsRun(machines, steps) && n < |machines| && i < |machines[n].owners|
    requires machines[n].owners[i].lease.Freed? || machines[n].lock != Some(i)
    requires !machines[n].owners[i].gone
    ensures !machines[n].owners[i].child.Live?
    ensures machines[n].owners[i].lease.Freed? ==> machines[n].owners[i].release.Ended?
  {
    EveryMachineIsGood(machines, steps, n);
    assert GoodOwner(machines[n], i);
  }

  // ---------------------------------------------------------------- after release has begun

  /** The process is the same as before, or it has exited. */
  predicate SpawnedNothing(before: Owner, after: Owner) {
    after.child == before.child || (before.child.Live? && after.child.Exited?)
  }

  lemma ReleasingStepSpawnsNothing(m: Machine, i: nat, action: Action, k: nat)
    requires May(m, i, action) && k < |m.owners| && !m.owners[k].release.Open?
    ensures |Next(m, i, action).owners| == |m.owners| && !Next(m, i, action).owners[k].release.Open?
    ensures SpawnedNothing(m.owners[k], Next(m, i, action).owners[k])
  {
  }

  lemma {:induction false} GateStaysClosed(machines: seq<Machine>, steps: seq<Step>, m: nat, n: nat, k: nat)
    requires IsRun(machines, steps) && m <= n < |machines| && k < |machines[m].owners|
    requires !machines[m].owners[k].release.Open?
    ensures |machines[n].owners| == |machines[m].owners| && !machines[n].owners[k].release.Open?
    ensures SpawnedNothing(machines[m].owners[k], machines[n].owners[k])
    decreases n - m
  {
    if m < n {
      GateStaysClosed(machines, steps, m, n - 1, k);
      var i, action := RunStep(machines, steps, n - 1);
      ReleasingStepSpawnsNothing(machines[n - 1], i, action, k);
    }
  }

  /**
   * Once `release` has begun, no step of anybody spawns a process for that owner: whether or not one
   * was alive, it can only exit, and the final check before the spawn leaves it as it is.
   */
  lemma NoSpawnAfterRelease(machines: seq<Machine>, steps: seq<Step>, m: nat, n: nat, k: nat)
    requires IsRun(machines, steps) && m <= n < |steps| && k < |machines[m].owners|
    requires !machines[m].owners[k].release.Open?
    ensures |machines[n].owners| == |machines[n + 1].owners| == |machines[m].owners|
    ensures SpawnedNothing(machines[n].owners[k], machines[n + 1].owners[k])
    ensures steps[n] == Step(k, CheckAndSpawn) ==> machines[n + 1].owners[k].child == machines[n].owners[k].child
  {
    GateStaysClosed(machines, steps, m, n, k);
    var i, action := RunStep(machines, steps, n);
    ReleasingStepSpawnsNothing(machines[n], i, action, k);
  }

  // ---------------------------------------------------------------- unproven cleanup

  lemma UnprovenStepStays(m: Machine, i: nat, action: Action, k: nat)
    requires Inv(m) && May(m, i, action) && k < |m.owners|
    requires m.owners[k].release.Unproven? && m.owners[k].lease in {Leased, Quarantined}
    ensures var after := Next(m, i, action).owners[k];
            after.release.Unproven? && after.lease in {Leased, Quarantined}
  {
  }

  /**
   * A cleanup that could not be proved never gives the lease back: the kernel lock stays held until
   * the owner process ends, and that needs the process gone or the marker written.
   */
  lemma {:induction false} UnprovenCleanupKeepsLease(machines: seq<Machine>, steps: seq<Step>, m: nat, n: nat, k: nat)
    requires IsRun(machines, steps) && m <= n < |machines| && k < |machines[m].owners|
    requires machines[m].owners[k].release.Unproven? && machines[m].owners[k].lease in {Leased, Quarantined}
    ensures |machines[n].owners| == |machines[m].owners|
    ensures machines[n].owners[k].release.Unproven? && machines[n].owners[k].lease in {Leased, Quarantined}
    ensures machines[n].lock == Some(k) || (machines[n].owners[k].gone
              && (machines[n].marker == Some(k) || !machines[n].owners[k].child.Live?))
    decreases n - m
  {
    EveryMachineIsGood(machines, steps, n);
    if m < n {
      UnprovenCleanupKeepsLease(machines, steps, m, n - 1, k);
      EveryMachineIsGood(machines, steps, n - 1);
      var i, action := RunStep(machines, steps, n - 1);
      UnprovenStepStays(machines[n - 1], i, action, k);
    }
    assert GoodOwner(machines[n], k);
  }

  lemma MarkerStays(machines: seq<Machine>, steps: seq<Step>, m: nat, n: nat)
    requires IsRun(machines, steps) && m <= n < |machines| && machines[m].marker.Some?
    ensures machines[n].marker == machines[m].marker
    decreases n - m
  {
    if m < n {
      MarkerStays(machines, steps, m, n - 1);
      var i, action := RunStep(machines, steps, n - 1);
    }
  }

  /** After the quarantine marker was written no acquisition succeeds again, even after its writer ended. */
  lemma NoGrantAfterMarker(machines: seq<Machine>, steps: seq<Step>, m: nat, n: nat)
    requires IsRun(machines, steps) && m <= n < |steps| && machines[m].marker.Some?
    ensures steps[n].action != GrantLease && steps[n].action != InspectMarker
  {
    MarkerStays(machines, steps, m, n);
    EveryMachineIsGood(machines, steps, n);
    var i, action := RunStep(machines, steps, n);
    assert GoodOwner(machines[n], i) && GoodOwner(machines[n], machines[n].marker.value);
  }

  // ---------------------------------------------------------------- the protocol gets through

  /** Before its release begins, an owner that is ready to spawn does spawn. */
  lemma ArmedOwnerSpawns(m: Machine, i: nat)
    requires i < |m.owners| && !m.owners[i].gone && m.owners[i].start.Armed? && m.owners[i].release.Open?
    ensures May(m, i, CheckAndSpawn) && Next(m, i, CheckAndSpawn).owners[i].child.Live?
    ensures Next(m, i, CheckAndSpawn).lock == m.lock && Next(m, i, CheckAndSpawn).marker == m.marker
    ensures forall k | 0 <= k < |m.owners| && k != i :: Next(m, i, CheckAndSpawn).owners[k] == m.owners[k]
  {
  }

  /** The second run goes on from the first. */
  ghost predicate Continues(machines: seq<Machine>, steps: seq<Step>, machines': seq<Machine>, steps': seq<Step>) {
    IsRun(machines', steps') && machines <= machines' && steps <= steps'
  }

  lemma Extend(machines: seq<Machine>, steps: seq<Step>, i: nat, action: Action)
    returns (machines': seq<Machine>, steps': seq<Step>, last: Machine)
    requires IsRun(machines, steps) && May(machines[|steps|], i, action)
    ensures Continues(machines, steps, machines', steps')
    ensures last == Next(machines[|steps|], i, action) && machines'[|steps'|] == last
  {
    last := Next(machines[|steps|], i, action);
    machines', steps' := machines + [last], steps + [Step(i, action)];
    forall n | 0 <= n < |steps'| ensures Takes(machines'[n], steps'[n], machines'[n + 1]) {
      if n < |steps| {
        assert Takes(machines[n], steps[n], machines[n + 1]);
      }
    }
  }

  predicate Untouched(o: Owner) {
    o == Owner(NoLease, NotStarted, NoChild, Open, false)
  }

  /** Only owner `i` has moved. */
  predicate OthersAreAsBefore(before: Machine, after: Machine, i: nat) {
    |after.owners| == |before.owners| && forall k | 0 <= k < |before.owners| && k != i :: after.owners[k] == before.owners[k]
  }

  /**
   * From every reachable machine whose lock is free and unmarked, an owner that did nothing yet can
   * come to hold the lock with a live process.
   */
  lemma FreeLockLeadsToResidency(machines: seq<Machine>, steps: seq<Step>, i: nat)
    returns (machines': seq<Machine>, steps': seq<Step>, last: Machine)
    requires IsRun(machines, steps) && i < |machines[|steps|].owners| && Untouched(machines[|steps|].owners[i])
    requires machines[|steps|].lock.None? && machines[|steps|].marker.None?
    ensures Continues(machines, steps, machines', steps') && machines'[|steps'|] == last
    ensures last.lock == Some(i) && last.marker.None? && OthersAreAsBefore(machines[|steps|], last, i)
    ensures last.owners[i] == Owner(Leased, Loading, Live, Open, false)
  {
    machines', steps', last := Extend(machines, steps, i, TakeLock);
    machines', steps', last := Extend(machines', steps', i, InspectMarker);
    machines', steps', last := Extend(machines', steps', i, GrantLease);
    machines', steps', last := Extend(machines', steps', i, BeginStart);
    machines', steps', last := Extend(machines', steps', i, ReadOperands);
    machines', steps', last := Extend(machines', steps', i, CheckAndSpawn);
  }

  /** From there a proven release can give the lease back: the lock is free, and the process gone. */
  lemma ResidencyLeadsToFreeLock(machines: seq<Machine>, steps: seq<Step>, i: nat)
    returns (machines': seq<Machine>, steps': seq<Step>, last: Machine)
    requires IsRun(machines, steps) && i < |machines[|steps|].owners| && machines[|steps|].marker.None?
    requires machines[|steps|].owners[i] == Owner(Leased, Loading, Live, Open, false)
    ensures Continues(machines, steps, machines', steps') && machines'[|steps'|] == last
    ensures last.lock.None? && last.marker.None? && OthersAreAsBefore(machines[|steps|], last, i)
    ensures last.owners[i] == Owner(Freed, Settled, Exited, Ended, false)
  {
    machines', steps', last := Extend(machines, steps, i, StartSettles);
    machines', steps', last := Extend(machines', steps', i, BeginRelease);
    machines', steps', last := Extend(machines', steps', i, ChildExits);
    machines', steps', last := Extend(machines', steps', i, ReapDone);
    machines', steps', last := Extend(machines', steps', i, StartSettled);
    machines', steps', last := Extend(machines', steps', i, ReapDone);
    machines', steps', last := Extend(machines', steps', i, CleanupDone);
    machines', steps', last := Extend(machines', steps', i, FreeLease);
  }

  /** So owners can be resident one after the other. */
  lemma OwnersTakeTurns(machines: seq<Machine>, steps: seq<Step>, i: nat, j: nat)
    returns (machines': seq<Machine>, steps': seq<Step>, between: nat)
    requires IsRun(machines, steps) && i < |machines[|steps|].owners| && j < |machines[|steps|].owners| && i != j
    requires Untouched(machines[|steps|].owners[i]) && Untouched(machines[|steps|].owners[j])
    requires machines[|steps|].lock.None? && machines[|steps|].marker.None?
    ensures Continues(machines, steps, machines', steps')
    ensures |steps| < between < |steps'| && machines'[between].lock == Some(i)
    ensures i < |machines'[between].owners| && machines'[between].owners[i].child.Live?
    ensures machines'[|steps'|].lock == Some(j)
    ensures j < |machines'[|steps'|].owners| && machines'[|steps'|].owners[j].child.Live?
  {
    var last;
    machines', steps', last := FreeLockLeadsToResidency(machines, steps, i);
    between := |steps'|;
    var held := machines'[between];
    machines', steps', last := ResidencyLeadsToFreeLock(machines', steps', i);
    machines', steps', last := FreeLockLeadsToResidency(machines', steps', j);
    assert machines'[between] == held;
  }

  /** An unproven cleanup of a leased owner can always be marked, and then the lease is quarantined. */
  lemma UnprovenCleanupIsMarked(m: Machine, i: nat)
    requires i < |m.owners| && !m.owners[i].gone && m.owners[i].release.Unproven? && m.owners[i].lease.Leased?
    ensures May(m, i, WriteMarker) && Next(m, i, WriteMarker).owners[i].lease.Quarantined?
    ensures Next(m, i, WriteMarker).marker.Some? && Next(m, i, WriteMarker).lock == m.lock
  {
  }
}
