/** The durable life of one persistence partition: its journal, its success marker, its files and its container. */
module PartitionLifecycle {
  // The code is scripts/local_ci_partition.py and scripts/local_ci_checkpoints.py.
  //
  // `Apply` performs one effect of the controller or of its surroundings; `Enabled` says when the effect
  // is safe. PartitionController proves that `execute` only ever performs enabled effects, whatever is
  // killed or powered off in between, so what is proved here of every run holds of the code.
  //
  // Digests in the success marker are modelled by the contents they determine.

  import opened Prelude
  import opened Durable

  type Owner = nat
  type ContainerId = nat
  type Boot = nat

  /** The partition's budget: 7200 seconds of the monotonic clock. */
  const TIMEOUT: int := 7_200_000_000_000

  datatype Phase = Intent | Created | Started | Failed

  datatype Budget = Budget(boot: Boot, start: int, deadline: int)

  datatype Attempt = Attempt(owner: Owner, mount: string, container: Option<ContainerId>,
                             budget: Option<Budget>, phase: Phase)

  datatype Exit = Exit(code: int, oomKilled: bool, error: string)

  datatype Status = Ready | Running | Exited(exit: Exit)

  datatype Container = Container(owner: Owner, mount: string, status: Status)

  /** An exit status, with the boot and the monotonic clock at that moment. */
  datatype Observation = Observation(exit: Exit, boot: Boot, at: int)

  /** What a container ran under, and when and how it really ended. */
  datatype Execution = Execution(budget: Budget, ended: Option<Observation>)

  /** A report's text, whether the persistence admission accepts it, and the container that wrote it. */
  datatype Report = Report(text: string, admitted: bool, writer: ContainerId)

  datatype Receipt = Receipt(result: Observation, attempt: Attempt, report: Report, log: string)

  /** An ordinary file: once synced it survives a power loss, before that anything may be read back. */
  datatype File<T> = File(content: Option<T>, settled: bool)

  datatype World = World(attempt: Disk<Option<Attempt>>, complete: Disk<Option<Receipt>>,
                         report: Disk<Option<Report>>, log: File<string>,
                         docker: map<ContainerId, Container>, runs: map<ContainerId, Execution>,
                         created: set<ContainerId>, owners: set<Owner>,
                         mount: string, boot: Boot, boots: set<Boot>, clock: int)

  datatype Action =
    | Journal(attempt: Attempt)       // os.replace of attempt.json
    | SyncDirectory
    | Reset                           // unlink of the unfinished report and log
    | DockerCreate(id: ContainerId)
    | DockerStart(id: ContainerId)
    | DockerRemove(id: ContainerId)
    | WriteLog(text: string, synced: bool)
    | SettleReport
    | Publish(receipt: Receipt)       // os.replace of complete.json
    | Tick(clock: int)
    | WriteReport(id: ContainerId, report: Report)
    | Finish(id: ContainerId, exit: Exit)
    | Relocate(mount: string)
    | PowerLoss(revealed: Option<Attempt>, marker: Option<Receipt>, reportRead: Option<Report>, logRead: Option<string>,
                boot: Boot, clock: int, exit: Exit)

  predicate WellFormed(a: Attempt) {
    && (a.phase.Intent? || a.phase.Created? <==> a.budget.None?)
    && (a.container.None? ==> a.phase.Intent?)
    && (a.budget.Some? ==> a.budget.value.start > 0 && a.budget.value.deadline == a.budget.value.start + TIMEOUT)
  }

  /** `validate_result`: a clean exit, observed on the boot and within the deadline of the attempt. */
  predicate WithinBudget(result: Observation, a: Attempt) {
    && result.exit == Exit(0, false, "")
    && a.budget.Some? && a.container.Some?
    && a.budget.value.start <= result.at <= a.budget.value.deadline && result.boot == a.budget.value.boot
    && a.budget.value.deadline == a.budget.value.start + TIMEOUT
  }

  predicate Names(stored: Option<Attempt>, owner: Owner) {
    stored.Some? && stored.value.owner == owner
  }

  /** The next journal entry continues the current attempt without touching its timing authority. */
  predicate Continues(w: World, a: Attempt) {
    && w.attempt.seen.Some? && a.owner == w.attempt.seen.value.owner && a.mount == w.attempt.seen.value.mount
    && (a.container.Some? ==> a.container == w.attempt.seen.value.container || a.container.value in w.docker)
    && (w.attempt.seen.value.container.Some? ==> a.container == w.attempt.seen.value.container)
    && (w.attempt.seen.value.budget.Some? ==> a.budget == w.attempt.seen.value.budget)
    && (a.budget.Some? && w.attempt.seen.value.budget.None? ==>
          a.container.Some? && a.container.value !in w.runs && a.budget.value.boot == w.boot
          && a.budget.value.start <= w.clock)
  }

  /** A new attempt may be journalled only when no owned container is left. */
  predicate Renews(w: World, a: Attempt) {
    w.docker == map[] && a.owner !in w.owners && a.phase.Intent? && a.container.None?
  }

  /** What a power loss may leave of the report: if not synced, any text of a report still on disk, or none. */
  predicate Readable(report: Disk<Option<Report>>, read: Option<Report>) {
    if report.Synced() then read == report.seen
    else read.Some? ==> exists v :: v in report.maybe && v.Some? && v.value.writer == read.value.writer
  }

  /**
   A container is removed when its work is marked, when its journal says failed, or when its mount is not this
   one.
   */
  predicate Removable(w: World) {
    || w.complete.seen.Some?
    || (w.attempt.seen.Some? && (w.attempt.seen.value.phase.Failed? || w.attempt.seen.value.mount != w.mount))
  }

  /** `result` was read from the ended container `id` at a moment of this boot that has come, and not before the end. */
  predicate Observed(w: World, id: ContainerId, result: Observation) {
    && id in w.docker && w.docker[id].status == Exited(result.exit) && result.boot == w.boot && result.at <= w.clock
    && id in w.runs && w.runs[id].ended.Some?
    && (w.runs[id].ended.value.boot == w.boot ==> w.runs[id].ended.value.at <= result.at)
  }

  predicate Enabled(w: World, action: Action) {
    match action
    case Journal(a) => w.complete.seen.None? && WellFormed(a) && (Continues(w, a) || Renews(w, a))
    case SyncDirectory => true
    case Reset => w.complete.seen.None?
    case DockerCreate(id) => w.docker == map[] && id !in w.created && w.complete.seen.None?
                             && w.attempt.Synced() && w.attempt.seen.Some? && w.attempt.seen.value.container.None?
                             && w.attempt.seen.value.phase.Intent?
    case DockerStart(id) => id in w.docker && w.docker[id].status.Ready? && w.complete.seen.None?
                            && w.attempt.Synced() && w.attempt.seen.Some? && w.attempt.seen.value.budget.Some?
                            && w.attempt.seen.value.budget.value.boot == w.boot
    case DockerRemove(id) => id in w.docker && Removable(w)
    case WriteLog(_, _) => w.complete.seen.None?
    case SettleReport => true
    case Publish(r) => && w.complete.seen.None? && w.attempt.Synced() && w.attempt.seen == Some(r.attempt)
                       && w.report == Stored(Some(r.report)) && w.log == File(Some(r.log), true)
                       && r.report.admitted && WithinBudget(r.result, r.attempt)
                       && Observed(w, r.attempt.container.value, r.result)
    case Tick(t) => w.clock <= t
    case WriteReport(id, r) => id in w.docker && w.docker[id].status.Running? && w.docker[id].mount == w.mount
                               && r.writer == id
    case Finish(id, _) => id in w.docker && w.docker[id].status.Running?
    case Relocate(_) => true
    case PowerLoss(a, r, report, log, boot, clock, exit) =>
      && a in w.attempt.maybe && r in w.complete.maybe && boot !in w.boots && clock > 0
      && Readable(w.report, report) && (w.log.settled ==> log == w.log.content)
  }

  function Apply(w: World, action: Action): World
    requires Enabled(w, action)
  {
    match action
    case Journal(a) => w.(attempt := w.attempt.Replace(Some(a)), owners := w.owners + {a.owner})
    case SyncDirectory => w.(attempt := w.attempt.Sync(), complete := w.complete.Sync())
    case Reset => w.(report := w.report.Replace(None), log := File(None, false))
    case DockerCreate(id) =>
      var c := Container(w.attempt.seen.value.owner, w.attempt.seen.value.mount, Ready);
      w.(docker := map[id := c], created := w.created + {id})
    case DockerStart(id) =>
      w.(docker := w.docker[id := w.docker[id].(status := Running)],
         runs := w.runs[id := Execution(w.attempt.seen.value.budget.value, None)])
    case DockerRemove(id) => w.(docker := w.docker - {id})
    case WriteLog(text, synced) => w.(log := File(Some(text), synced))
    case SettleReport => w.(report := w.report.Sync())
    case Publish(r) => w.(complete := w.complete.Replace(Some(r)))
    case Tick(t) => w.(clock := t)
    case WriteReport(id, r) => w.(report := w.report.Replace(Some(r)))
    case Finish(id, exit) =>
      w.(docker := w.docker[id := w.docker[id].(status := Exited(exit))],
         runs := if id in w.runs then w.runs[id := Stopped(w, id, exit)] else w.runs)
    case Relocate(m) => w.(mount := m)
    case PowerLoss(a, r, report, log, boot, clock, exit) =>
      w.(attempt := w.attempt.Reveal(a), complete := w.complete.Reveal(r),
         report := Stored(report), log := File(log, w.log.settled),
         docker := map id | id in w.docker ::
                     if w.docker[id].status.Running? then w.docker[id].(status := Exited(exit)) else w.docker[id],
         runs := map id | id in w.runs ::
                   if id in w.docker && w.docker[id].status.Running? then Stopped(w, id, exit) else w.runs[id],
         boot := boot, boots := w.boots + {boot}, clock := clock)
  }

  /** The execution of `id` ends here and now. */
  function Stopped(w: World, id: ContainerId, exit: Exit): Execution
    requires id in w.runs
  {
    w.runs[id].(ended := Some(Observation(exit, w.boot, w.clock)))
  }

  function Empty(mount: string, boot: Boot, clock: int): World {
    World(Stored(None), Stored(None), Stored(None), File(None, false), map[], map[], {}, {}, mount, boot, {boot}, clock)
  }

  // --- The invariant ----------------------------------------------------------------------

  /** Any journal a crash can reveal names the existing container, and no other container exists. */
  ghost predicate Owned(w: World) {
    forall id :: id in w.docker ==>
      && id in w.created && w.docker == map[id := w.docker[id]]
      && forall v :: v in w.attempt.maybe ==>
           Names(v, w.docker[id].owner) && v.value.mount == w.docker[id].mount
           && (v.value.container.Some? ==> v.value.container.value == id)
  }

  /** Journals of one attempt never disagree on its budget; all of them carry that of an execution. */
  ghost predicate Timed(w: World) {
    && (forall v :: v in w.attempt.maybe && v.Some? ==> WellFormed(v.value) && v.value.owner in w.owners)
    && (forall v :: v in w.attempt.maybe && v.Some? && v.value.budget.Some? && Names(w.attempt.seen, v.value.owner) ==>
          w.attempt.seen.value.budget == v.value.budget)
    && (forall id :: id in w.docker ==> (id in w.runs <==> !w.docker[id].status.Ready?))
    && (forall id :: id in w.docker && id in w.runs ==>
          && (w.docker[id].status.Exited? ==>
                w.runs[id].ended.Some? && w.runs[id].ended.value.exit == w.docker[id].status.exit)
          && (w.docker[id].status.Running? ==> w.runs[id].ended.None?)
          && forall v :: v in w.attempt.maybe && v.Some? ==> v.value.budget == Some(w.runs[id].budget))
    && (forall id :: id in w.runs ==> id in w.created)
  }

  /** A budget is of a boot there was, and if it is of this boot its start has come. */
  predicate Begun(w: World, b: Budget) {
    b.boot in w.boots && (b.boot == w.boot ==> b.start <= w.clock)
  }

  /** `e` ended after its start, on the boot of its budget, and not in the future. */
  predicate EndedSince(w: World, e: Execution) {
    && e.ended.Some? && e.ended.value.boot == e.budget.boot && e.budget.start <= e.ended.value.at
    && (e.budget.boot == w.boot ==> e.ended.value.at <= w.clock)
  }

  /** Budgets start at the clock of their boot, and executions end at it; a running container is of this boot. */
  ghost predicate Clocked(w: World) {
    && w.boot in w.boots && w.clock > 0
    && (forall v :: v in w.attempt.maybe && v.Some? && v.value.budget.Some? ==> Begun(w, v.value.budget.value))
    && (forall id :: id in w.runs ==> Begun(w, w.runs[id].budget))
    && (forall id :: id in w.runs ==> w.runs[id].ended.None? || EndedSince(w, w.runs[id]))
    && (forall id :: id in w.docker && id in w.runs && w.docker[id].status.Running? ==>
                       w.runs[id].budget.boot == w.boot)
  }

  /**
   A success marker records a clean exit that really happened, on the boot of the original budget and
   between its start and its deadline.
   */
  ghost predicate Earned(w: World, r: Receipt) {
    && WithinBudget(r.result, r.attempt) && r.report.admitted
    && r.attempt.container.value in w.runs
    && var e := w.runs[r.attempt.container.value];
    && e.budget == r.attempt.budget.value && e.ended.Some?
    && e.ended.value.exit == r.result.exit && e.ended.value.boot == e.budget.boot
    && e.budget.start <= e.ended.value.at <= r.result.at <= e.budget.deadline
  }

  ghost predicate Marked(w: World) {
    && (forall v :: v in w.complete.maybe && v.Some? ==> w.complete.seen == v && Earned(w, v.value))
    && (w.complete.seen.Some? ==>
          && w.attempt == Stored(Some(w.complete.seen.value.attempt))
          && w.report == Stored(Some(w.complete.seen.value.report))
          && w.log == File(Some(w.complete.seen.value.log), true)
          && forall id :: id in w.docker ==> w.docker[id].status.Exited?)
  }

  ghost predicate Invariant(w: World) {
    w.attempt.Consistent() && w.complete.Consistent() && Owned(w) && Timed(w) && Clocked(w) && Marked(w)
  }

  lemma {:induction false} OwnedStep(w: World, a: Action)
    requires Invariant(w) && Enabled(w, a)
    ensures Owned(Apply(w, a))
  {
    if a.Journal? {
      JournalKeepsOwned(w, a.attempt);
    } else if a.PowerLoss? {
      PowerLossKeepsOwned(w, a);
    }
  }

  lemma {:induction false} JournalKeepsOwned(w: World, a: Attempt)
    requires Invariant(w) && Enabled(w, Journal(a))
    ensures Owned(Apply(w, Journal(a)))
  {
  }

  lemma {:induction false} PowerLossKeepsOwned(w: World, a: Action)
    requires Invariant(w) && Enabled(w, a) && a.PowerLoss?
    ensures Owned(Apply(w, a))
  {
  }

  lemma {:induction false} TimedStep(w: World, a: Action)
    requires Invariant(w) && Enabled(w, a)
    ensures Timed(Apply(w, a))
  {
    if a.Journal? {
      JournalKeepsTimed(w, a.attempt);
    } else if a.PowerLoss? {
      PowerLossKeepsTimed(w, a);
    } else if a.DockerStart? || a.Finish? || a.DockerCreate? || a.DockerRemove? {
      DockerKeepsTimed(w, a);
    }
  }

  lemma {:induction false} JournalKeepsTimed(w: World, a: Attempt)
    requires Invariant(w) && Enabled(w, Journal(a))
    ensures Timed(Apply(w, Journal(a)))
  {
  }

  lemma {:induction false} DockerKeepsTimed(w: World, a: Action)
    requires Invariant(w) && Enabled(w, a)
    requires a.DockerStart? || a.Finish? || a.DockerCreate? || a.DockerRemove?
    ensures Timed(Apply(w, a))
  {
  }

  lemma {:induction false} PowerLossKeepsTimed(w: World, a: Action)
    requires Invariant(w) && Enabled(w, a) && a.PowerLoss?
    ensures Timed(Apply(w, a))
  {
  }

  lemma {:induction false} ClockedStep(w: World, a: Action)
    requires Invariant(w) && Enabled(w, a)
    ensures Clocked(Apply(w, a))
  {
    if a.Journal? {
      JournalKeepsClocked(w, a.attempt);
    } else if a.PowerLoss? {
      PowerLossKeepsClocked(w, a);
    } else if a.DockerStart? || a.Finish? || a.DockerCreate? || a.DockerRemove? {
      DockerKeepsClocked(w, a);
    }
  }

  lemma {:induction false} JournalKeepsClocked(w: World, a: Attempt)
    requires Invariant(w) && Enabled(w, Journal(a))
    ensures Clocked(Apply(w, Journal(a)))
  {
  }

  lemma {:induction false} DockerKeepsClocked(w: World, a: Action)
    requires Invariant(w) && Enabled(w, a)
    requires a.DockerStart? || a.Finish? || a.DockerCreate? || a.DockerRemove?
    ensures Clocked(Apply(w, a))
  {
  }

  lemma {:induction false} PowerLossKeepsClocked(w: World, a: Action)
    requires Invariant(w) && Enabled(w, a) && a.PowerLoss?
    ensures Clocked(Apply(w, a))
  {
  }

  lemma {:induction false} MarkedStep(w: World, a: Action)
    requires Invariant(w) && Enabled(w, a)
    ensures Marked(Apply(w, a))
  {
    if a.Publish? {
      PublishKeepsMarked(w, a.receipt);
    } else if a.PowerLoss? {
      PowerLossKeepsMarked(w, a);
    }
  }

  lemma {:induction false} PublishKeepsMarked(w: World, r: Receipt)
    requires Invariant(w) && Enabled(w, Publish(r))
    ensures Marked(Apply(w, Publish(r)))
  {
  }

  lemma {:induction false} PowerLossKeepsMarked(w: World, a: Action)
    requires Invariant(w) && Enabled(w, a) && a.PowerLoss?
    ensures Marked(Apply(w, a))
  {
  }

  lemma {:induction false} InvariantStep(w: World, a: Action)
    requires Invariant(w) && Enabled(w, a)
    ensures Invariant(Apply(w, a))
  {
    OwnedStep(w, a);
    TimedStep(w, a);
    ClockedStep(w, a);
    MarkedStep(w, a);
  }

  // --- Every run --------------------------------------------------------------------------

  ghost predicate IsRun(worlds: seq<World>, actions: seq<Action>) {
    && |worlds| == |actions| + 1
    && (exists mount, boot, clock :: clock > 0 && worlds[0] == Empty(mount, boot, clock))
    && forall i :: 0 <= i < |actions| ==> Enabled(worlds[i], actions[i]) && worlds[i+1] == Apply(worlds[i], actions[i])
  }

  lemma {:induction false} RunKeepsInvariant(worlds: seq<World>, actions: seq<Action>)
    requires IsRun(worlds, actions)
    ensures forall i :: 0 <= i < |worlds| ==> Invariant(worlds[i])
    decreases |actions|
  {
    if actions != [] {
      var n := |actions| - 1;
      RunKeepsInvariant(worlds[..n+1], actions[..n]);
      assert Invariant(worlds[..n+1][n]);
      InvariantStep(worlds[n], actions[n]);
      forall i | 0 <= i < n ensures Invariant(worlds[i]) {
        assert worlds[i] == worlds[..n+1][i];
      }
    }
  }

  /** At most one owned container exists, and it is the one any surviving journal names. */
  lemma OneOwnedContainer(worlds: seq<World>, actions: seq<Action>, i: nat)
    requires IsRun(worlds, actions) && i < |worlds|
    ensures forall id, other :: id in worlds[i].docker && other in worlds[i].docker ==> id == other
    ensures forall id, v :: id in worlds[i].docker && v in worlds[i].attempt.maybe ==>
              && v.Some? && v.value.owner == worlds[i].docker[id].owner
              && (v.value.container.Some? ==> v.value.container.value == id)
  {
    RunKeepsInvariant(worlds, actions);
  }

  lemma InvariantAt(worlds: seq<World>, actions: seq<Action>, i: nat)
    requires IsRun(worlds, actions) && i < |worlds|
    ensures Invariant(worlds[i])
  {
    RunKeepsInvariant(worlds, actions);
  }

  lemma {:induction false} RunsGrow(w: World, a: Action, id: ContainerId)
    requires Enabled(w, a) && id in w.runs && a != DockerStart(id)
    ensures id in Apply(w, a).runs && Apply(w, a).runs[id].budget == w.runs[id].budget
  {
  }

  lemma {:induction false} StartedOnce(w: World, id: ContainerId)
    requires Invariant(w) && id in w.runs
    ensures !Enabled(w, DockerStart(id))
    ensures id in w.docker ==> forall v :: v in w.attempt.maybe ==>
              v.Some? && v.value.budget == Some(w.runs[id].budget)
  {
  }

  /**
   Executions are never forgotten or re-timed, a started container is not started again, and while it
   exists every journal a crash can reveal carries the budget it started under.
   */
  lemma {:induction false} BudgetIsPermanent(worlds: seq<World>, actions: seq<Action>, i: nat, j: nat, id: ContainerId)
    requires IsRun(worlds, actions) && i <= j < |worlds| && id in worlds[i].runs
    ensures id in worlds[j].runs && worlds[j].runs[id].budget == worlds[i].runs[id].budget
    ensures j < |actions| ==> actions[j] != DockerStart(id)
    ensures id in worlds[j].docker ==> forall v :: v in worlds[j].attempt.maybe ==>
              v.Some? && v.value.budget == Some(worlds[i].runs[id].budget)
    decreases j
  {
    if i < j {
      BudgetIsPermanent(worlds, actions, i, j - 1, id);
      RunsGrow(worlds[j-1], actions[j-1], id);
    }
    InvariantAt(worlds, actions, j);
    StartedOnce(worlds[j], id);
  }

  /** Whatever success marker a crash can reveal was earned within the original budget. */
  lemma MarkersAreEarned(worlds: seq<World>, actions: seq<Action>, i: nat)
    requires IsRun(worlds, actions) && i < |worlds|
    ensures forall v :: v in worlds[i].complete.maybe && v.Some? ==> Earned(worlds[i], v.value)
  {
    RunKeepsInvariant(worlds, actions);
  }

  predicate SameRecord(w: World, n: World) {
    n.complete.seen == w.complete.seen && n.attempt == w.attempt && n.report == w.report && n.log == w.log
  }

  lemma {:induction false} CompletedStep(w: World, a: Action)
    requires Invariant(w) && Enabled(w, a) && w.complete.seen.Some?
    requires w.complete.Synced() || !a.PowerLoss?
    ensures SameRecord(w, Apply(w, a)) && (w.complete.Synced() ==> Apply(w, a).complete.Synced())
  {
  }

  /** Once marked complete, the journal, report and log stay as recorded. */
  lemma {:induction false} CompletedIsImmutable(worlds: seq<World>, actions: seq<Action>, i: nat, j: nat)
    requires IsRun(worlds, actions) && i <= j < |worlds| && worlds[i].complete.seen.Some?
    requires worlds[i].complete.Synced() || forall k :: i <= k < j ==> !actions[k].PowerLoss?
    ensures SameRecord(worlds[i], worlds[j]) && (worlds[i].complete.Synced() ==> worlds[j].complete.Synced())
    decreases j
  {
    if i < j {
      CompletedIsImmutable(worlds, actions, i, j - 1);
      InvariantAt(worlds, actions, j - 1);
      CompletedStep(worlds[j-1], actions[j-1]);
    }
  }
}
