/**
 `execute` of scripts/local_ci_partition.py as code over the durable world of one partition.

 Between any two effects `Pause` lets the surroundings act: time passes, the container writes its
 report or exits, this controller is killed, or the power fails. A Docker command may fail before or
 after it took effect. The code only ever performs enabled effects, so the theorems of
 PartitionLifecycle hold of everything it does.
 */
module PartitionController {
  import opened Prelude
  import opened Durable
  import opened PartitionLifecycle

  datatype Event = Happens(action: Action) | Kill

  /** What surrounds one effect; for a Docker command also whether it took effect and was reported. */
  datatype Gap = Gap(events: seq<Event>, performed: bool, reported: bool)

  datatype Logs = Retained(text: string) | TooLarge | Unreadable

  datatype Environment = Environment(gaps: seq<Gap>, logs: Logs, waited: bool)
  {
    function At(i: nat): Gap {
      if i < |gaps| then gaps[i] else Gap([], true, true)
    }
  }

  datatype Reason = DaemonFailure | Corrupt | LiveCompleted | BootChanged | Disappeared | UnjournalledExecution
                  | NoDeadline | DeadlineExpired | NoTerminalResult | LogsUnreadable | NotQualified

  datatype Origin = FromCheckpoint | Fresh | Reattached

  datatype Outcome = Killed | Raised(reason: Reason) | Done(report: Report, origin: Origin)

  /** How a helper of `execute` ends: go on, or leave with an outcome. */
  datatype Step = Go | Leave(outcome: Outcome)

  datatype Look = Saw(container: Option<(ContainerId, Status)>) | Blind(outcome: Outcome)

  datatype Log = Begin(mount: string, boot: Boot, clock: int) | Then(before: Log, action: Action)

  ghost function End(log: Log): World {
    match log
    case Begin(mount, boot, clock) => Empty(mount, boot, clock)
    case Then(before, a) => if Enabled(End(before), a) then Apply(End(before), a) else End(before)
  }

  ghost predicate Legal(log: Log) {
    match log
    case Begin(_, _, clock) => clock > 0
    case Then(before, a) => Legal(before) && Enabled(End(before), a)
  }

  ghost function Worlds(log: Log): (r: seq<World>)
    ensures r != []
  {
    if log.Begin? then [End(log)] else Worlds(log.before) + [End(log)]
  }

  ghost function Actions(log: Log): seq<Action> {
    if log.Begin? then [] else Actions(log.before) + [log.action]
  }

  /** What the code did is a run, so every theorem about runs holds of it. */
  lemma {:induction false} LogIsRun(log: Log)
    requires Legal(log)
    ensures IsRun(Worlds(log), Actions(log)) && Worlds(log)[|Actions(log)|] == End(log)
  {
    if log.Then? {
      LogIsRun(log.before);
      assert Worlds(log)[0] == Worlds(log.before)[0];
    }
  }

  predicate Surrounding(a: Action) {
    a.Tick? || a.WriteReport? || a.Finish? || a.PowerLoss?
  }

  predicate Progress(a: Status, b: Status) {
    a == b || (a.Running? && b.Exited?)
  }

  predicate SameContainers(w: World, n: World) {
    && w.docker.Keys == n.docker.Keys
    && forall id :: id in w.docker ==>
         && n.docker[id].owner == w.docker[id].owner && n.docker[id].mount == w.docker[id].mount
         && Progress(w.docker[id].status, n.docker[id].status)
  }

  predicate Idle(w: World) {
    forall id :: id in w.docker ==> !w.docker[id].status.Running?
  }

  /** The report is as it was, or the container wrote it. */
  predicate ReportGrows(w: World, n: World) {
    n.report.seen == w.report.seen || (n.report.seen.Some? && n.report.seen.value.writer in w.docker)
  }

  predicate SameFiles(w: World, n: World) {
    n.attempt == w.attempt && n.complete == w.complete && n.log == w.log
  }

  /** On the same boot, and no earlier. */
  predicate Later(w: World, n: World) {
    n.boot == w.boot && w.clock <= n.clock
  }

  /** The containers, their executions and the report did not change. */
  predicate Still(w: World, n: World) {
    n.report == w.report && n.docker == w.docker && n.runs == w.runs
  }

  /** Nothing but time, the container's progress and its report changed, and an idle one changes nothing. */
  predicate Calm(w: World, n: World) {
    && SameFiles(w, n) && SameContainers(w, n) && ReportGrows(w, n) && (Idle(w) ==> Still(w, n))
    && n.mount == w.mount && n.owners == w.owners && n.created == w.created && Later(w, n)
  }

  lemma CalmStep(w: World, a: Action)
    requires Invariant(w) && Enabled(w, a) && Surrounding(a) && !a.PowerLoss?
    ensures Calm(w, Apply(w, a))
  {
  }

  lemma CalmTransitive(w: World, m: World, n: World)
    requires Calm(w, m) && Calm(m, n)
    ensures Calm(w, n)
  {
  }

  /** A durable success marker and what it records. */
  predicate Complete(w: World) {
    w.complete.seen.Some? && w.complete.Synced()
  }

  /** `report` is the durably marked one, the marker was earned, and no owned container is left. */
  ghost predicate Returns(w: World, report: Report) {
    && Complete(w) && w.complete.seen.value.report == report && Earned(w, w.complete.seen.value)
    && w.docker == map[]
  }

  /** The marked result was read from the clock after `w`, without a change of boot. */
  predicate MarkedSince(w: World, n: World) {
    && Later(w, n) && n.complete.seen.Some?
    && n.complete.seen.value.result.boot == w.boot && w.clock <= n.complete.seen.value.result.at <= n.clock
  }

  lemma MarkerIsEarned(w: World)
    requires Invariant(w) && w.complete.seen.Some?
    ensures Earned(w, w.complete.seen.value)
  {
    assert w.complete.seen in w.complete.maybe;
  }

  /** What was complete stays so, unchanged. */
  predicate KeepsComplete(w: World, n: World) {
    Complete(w) ==> Complete(n) && SameRecord(w, n)
  }

  /** No success marker, and none can come back. */
  predicate Unmarked(w: World) {
    w.complete == Stored(None)
  }

  /** Time and the container went on; the journal may have been rewritten. */
  predicate Elapsed(w: World, n: World) {
    && SameContainers(w, n) && ReportGrows(w, n) && (Idle(w) ==> Still(w, n))
    && n.mount == w.mount && n.created == w.created && n.log == w.log && Later(w, n)
  }

  lemma AfterJournal(w: World, a: Attempt, n: World)
    requires Unmarked(w) && Enabled(w, Journal(a)) && Calm(Apply(w, Journal(a)), n)
    ensures n.attempt.seen == Some(a) && Unmarked(n) && Elapsed(w, n) && n.owners == w.owners + {a.owner}
  {
  }

  lemma AfterSync(w: World, n: World)
    requires Unmarked(w) && Calm(Apply(w, SyncDirectory), n)
    ensures n.attempt == Stored(w.attempt.seen) && Unmarked(n) && Elapsed(w, n) && n.owners == w.owners
  {
  }

  lemma ElapsedTransitive(w: World, m: World, n: World)
    requires Elapsed(w, m) && Elapsed(m, n)
    ensures Elapsed(w, n)
  {
  }

  /** `completed` accepts the marker: it records the files as they are, and a qualifying result. */
  predicate ReceiptHolds(w: World) {
    w.complete.seen.Some? &&
    var r := w.complete.seen.value;
    && w.attempt.seen == Some(r.attempt) && w.report.seen == Some(r.report) && w.log.content == Some(r.log)
    && WithinBudget(r.result, r.attempt) && r.report.admitted
  }

  /** The current attempt owns container `id`, and every crash keeps its journal. */
  predicate Holds(w: World, id: ContainerId) {
    && Unmarked(w) && w.attempt.Synced() && w.attempt.seen.Some? && w.attempt.seen.value.container == Some(id)
    && id in w.docker
  }

  /** No container but `id` wrote the report. */
  predicate Authored(w: World, id: ContainerId) {
    w.report.seen.Some? ==> w.report.seen.value.writer == id
  }

  /** Time went on, and a report of container `id` alone stays its own. */
  predicate Kept(w: World, n: World, id: ContainerId) {
    Later(w, n) && (Authored(w, id) ==> Authored(n, id))
  }

  predicate Deadly(event: Event) {
    event.Kill? || event.action.PowerLoss?
  }

  /** The controller was really killed, or a Docker command really failed or went unreported. */
  ghost predicate Interrupted(o: Outcome, env: Environment) {
    || (o.Killed? && exists i, e :: 0 <= i < |env.gaps| && e in env.gaps[i].events && Deadly(e))
    || (o == Raised(DaemonFailure) && exists i :: 0 <= i < |env.gaps|
                                                  && !(env.gaps[i].performed && env.gaps[i].reported))
  }

  /** The failure is journalled durably and no owned container is left. */
  predicate Abandoned(n: World) {
    && n.docker == map[] && n.attempt.Synced() && n.attempt.seen.Some?
    && n.attempt.seen.value.phase.Failed? && n.attempt.seen.value.budget.Some?
  }

  /** The attempt was given up when its deadline had come. */
  predicate Overdue(n: World) {
    && Abandoned(n) && n.attempt.seen.value.budget.value.boot == n.boot
    && n.attempt.seen.value.budget.value.deadline <= n.clock
  }

  /** The attempt ended, but not cleanly, not in time, without an admitted report, or with too large a log. */
  predicate Unqualified(n: World, logs: Logs) {
    && Abandoned(n) && n.attempt.seen.value.container.Some? && n.attempt.seen.value.container.value in n.runs
    && var e := n.runs[n.attempt.seen.value.container.value];
    && e.ended.Some?
    && (|| logs.TooLarge?
        || n.report.seen.None? || !n.report.seen.value.admitted
        || e.ended.value.exit != Exit(0, false, "")
        || n.attempt.seen.value.budget.value.deadline < n.clock)
  }

  /**
   How a call may fail in the world `n`, apart from a change of boot. The other errors that the code guards
   against are never met with an honest daemon.
   */
  ghost predicate Fails(o: Outcome, env: Environment, n: World) {
    || Interrupted(o, env)
    || (o == Raised(LogsUnreadable) && env.logs.Unreadable?)
    || (o == Raised(DeadlineExpired) && Overdue(n))
    || (o == Raised(NotQualified) && Unqualified(n, env.logs))
  }

  /** The attempt was started on another boot. */
  predicate BootMoved(w: World) {
    w.attempt.seen.Some? && w.attempt.seen.value.budget.Some? && w.attempt.seen.value.budget.value.boot != w.boot
  }

  /** The attempt's budget is of this boot. */
  predicate OnTime(w: World) {
    w.attempt.seen.Some? && w.attempt.seen.value.budget.Some? && w.attempt.seen.value.budget.value.boot == w.boot
  }

  /** The attempt is not given up, its mount is this one and its container exists. */
  predicate GoesOn(w: World, mount: string) {
    && w.attempt.seen.Some? && !w.attempt.seen.value.phase.Failed? && w.attempt.seen.value.mount == mount
    && w.docker != map[]
  }

  lemma NothingJournalled(w: World)
    requires Invariant(w) && w.attempt.seen.None?
    ensures w.docker == map[] && !BootMoved(w)
  {
    assert w.attempt.seen in w.attempt.maybe;
  }

  lemma ObservedNow(w: World, id: ContainerId, exit: Exit)
    requires Invariant(w) && id in w.docker && w.docker[id].status == Exited(exit)
    ensures Observed(w, id, Observation(exit, w.boot, w.clock))
  {
  }

  lemma ObservedStill(w: World, n: World, id: ContainerId, result: Observation)
    requires Observed(w, id, result) && Still(w, n) && Later(w, n)
    ensures Observed(n, id, result)
  {
  }

  class Controller {
    var world: World
    ghost var log: Log

    ghost predicate Valid()
      reads this
    {
      Legal(log) && End(log) == world && Invariant(world)
    }

    constructor (mount: string, boot: Boot, clock: int)
      requires clock > 0
      ensures Valid() && world == Empty(mount, boot, clock)
    {
      world, log := Empty(mount, boot, clock), Begin(mount, boot, clock);
    }

    method Perform(a: Action)
      requires Valid() && Enabled(world, a)
      modifies this
      ensures Valid() && world == Apply(old(world), a)
    {
      InvariantStep(world, a);
      world := Apply(world, a);
      log := Then(log, a);
    }

    /** One event of the surroundings, if it can happen now. */
    method Happen(event: Event) returns (alive: bool)
      requires Valid()
      modifies this
      ensures Valid() && (alive ==> Calm(old(world), world)) && KeepsComplete(old(world), world)
      ensures !alive ==> Deadly(event)
    {
      if event.Kill? {
        return false;
      }
      var a := event.action;
      alive := true;
      if Surrounding(a) && Enabled(world, a) {
        if Complete(world) {
          CompletedStep(world, a);
        }
        alive := !a.PowerLoss?;
        if alive {
          CalmStep(world, a);
        }
        Perform(a);
      }
    }

    method Pause(events: seq<Event>) returns (alive: bool)
      requires Valid()
      modifies this
      ensures Valid() && (alive ==> Calm(old(world), world)) && KeepsComplete(old(world), world)
      ensures !alive ==> exists e :: e in events && Deadly(e)
    {
      for i := 0 to |events|
        invariant Valid() && Calm(old(world), world) && KeepsComplete(old(world), world)
      {
        ghost var before := world;
        alive := Happen(events[i]);
        if !alive {
          return false;
        }
        CalmTransitive(old(world), before, world);
      }
      alive := true;
    }
  
    method PauseAt(env: Environment, i: nat) returns (alive: bool)
      requires Valid()
      modifies this
      ensures Valid() && (alive ==> Calm(old(world), world)) && KeepsComplete(old(world), world)
      ensures !alive ==> Interrupted(Killed, env)
    {
      alive := Pause(env.At(i).events);
    }

    method Rename(a: Attempt, env: Environment, i: nat) returns (alive: bool)
      requires Valid() && Unmarked(world) && Enabled(world, Journal(a))
      modifies this
      ensures Valid()
      ensures !alive ==> Interrupted(Killed, env)
      ensures alive ==> world.attempt.seen == Some(a) && Unmarked(world) && Elapsed(old(world), world)
      ensures alive ==> world.owners == old(world.owners) + {a.owner}
    {
      ghost var before := world;
      Perform(Journal(a));
      alive := PauseAt(env, i);
      if alive {
        AfterJournal(before, a, world);
      }
    }

    method SyncJournal(env: Environment, i: nat) returns (alive: bool)
      requires Valid() && Unmarked(world)
      modifies this
      ensures Valid()
      ensures !alive ==> Interrupted(Killed, env)
      ensures alive ==>
                world.attempt == Stored(old(world.attempt.seen)) && Unmarked(world) && Elapsed(old(world), world)
      ensures alive ==> world.owners == old(world.owners)
    {
      ghost var before := world;
      Perform(SyncDirectory);
      alive := PauseAt(env, i);
      if alive {
        AfterSync(before, world);
      }
    }

    /** `save_attempt`: rename, then sync the directory. */
    method Save(a: Attempt, env: Environment, i: nat) returns (alive: bool)
      requires Valid() && Unmarked(world) && Enabled(world, Journal(a))
      modifies this
      ensures Valid()
      ensures !alive ==> Interrupted(Killed, env)
      ensures alive ==> world.attempt == Stored(Some(a)) && Unmarked(world) && Elapsed(old(world), world)
      ensures alive ==> world.owners == old(world.owners) + {a.owner}
    {
      alive := Rename(a, env, i);
      if alive {
        ghost var renamed := world;
        alive := SyncJournal(env, i + 1);
        if alive {
          ElapsedTransitive(old(world), renamed, world);
        }
      }
    }

    /** `inspect_attempt`: the journalled container, or its proven absence. */
    method Inspect(env: Environment, i: nat) returns (look: Look)
      requires Valid() && world.attempt.seen.Some?
      modifies this
      ensures Valid() && KeepsComplete(old(world), world)
      ensures look.Blind? ==> Interrupted(look.outcome, env)
      ensures look.Saw? ==> Calm(old(world), world)
      ensures look == Saw(None) ==> world.docker == map[]
      ensures look.Saw? && look.container.Some? ==>
                var (id, status) := look.container.value;
                && id in world.docker && Progress(status, world.docker[id].status)
                && id in old(world.docker) && status == old(world.docker)[id].status
    {
      var attempt := world.attempt.seen.value;
      look := Saw(None);
      if attempt.container.Some? {
        if attempt.container.value in world.docker {
          look := Saw(Some((attempt.container.value, world.docker[attempt.container.value].status)));
        }
      } else if exists id :: id in world.docker && world.docker[id].owner == attempt.owner {
        var id :| id in world.docker && world.docker[id].owner == attempt.owner;
        look := Saw(Some((id, world.docker[id].status)));
      }
      assert look == Saw(None) ==> world.docker == map[] by {
        assert world.attempt.seen in world.attempt.maybe;
        assert forall id :: id in world.docker ==> world.docker[id].owner == attempt.owner;
      }
      var alive := PauseAt(env, i);
      if !alive {
        look := Blind(Killed);
      } else if !env.At(i).reported {
        look := Blind(Raised(DaemonFailure));
      }
    }

    /** `remove_owned`: afterwards no owned container is left. */
    method RemoveOwned(env: Environment, i: nat) returns (s: Step)
      requires Valid() && Removable(world) && world.attempt.seen.Some?
      modifies this
      ensures Valid() && KeepsComplete(old(world), world)
      ensures s.Leave? ==> Interrupted(s.outcome, env)
      ensures s.Go? ==> world.docker == map[] && SameFiles(old(world), world) && world.mount == old(world.mount)
      ensures s.Go? ==>
                world.owners == old(world.owners) && world.created == old(world.created) && Later(old(world), world)
      ensures s.Go? && Idle(old(world)) ==> world.report == old(world.report) && world.runs == old(world.runs)
    {
      var look := Inspect(env, i);
      if look.Blind? {
        return Leave(look.outcome);
      }
      if look.container.None? {
        return Go;
      }
      s := Remove(look.container.value.0, env, i + 1);
    }

    method Remove(id: ContainerId, env: Environment, i: nat) returns (s: Step)
      requires Valid() && Removable(world) && id in world.docker
      modifies this
      ensures Valid() && KeepsComplete(old(world), world)
      ensures s.Leave? ==> Interrupted(s.outcome, env)
      ensures s.Go? ==> world.docker == map[] && SameFiles(old(world), world) && world.mount == old(world.mount)
      ensures s.Go? ==>
                world.owners == old(world.owners) && world.created == old(world.created) && Later(old(world), world)
      ensures s.Go? && Idle(old(world)) ==> world.report == old(world.report) && world.runs == old(world.runs)
    {
      var gap := env.At(i);
      if gap.performed {
        Perform(DockerRemove(id));
        assert world.docker == map[];
      }
      var alive := PauseAt(env, i);
      if !alive {
        return Leave(Killed);
      }
      s := if gap.performed && gap.reported then Go else Leave(Raised(DaemonFailure));
    }
  
    /** The failure path: a durable failed journal, then the container goes. */
    method FailAttempt(reason: Reason, env: Environment, i: nat) returns (o: Outcome)
      requires Valid() && Unmarked(world) && world.attempt.seen.Some? && world.attempt.seen.value.budget.Some?
      requires reason != DaemonFailure
      modifies this
      ensures Valid() && (Interrupted(o, env) || o == Raised(reason))
      ensures o == Raised(reason) ==>
                world.docker == map[] && world.attempt == Stored(Some(old(world.attempt.seen.value).(phase := Failed)))
      ensures o == Raised(reason) ==> Later(old(world), world)
      ensures o == Raised(reason) && Idle(old(world)) ==>
                world.report == old(world.report) && world.runs == old(world.runs)
    {
      assert world.attempt.seen in world.attempt.maybe;
      var a := world.attempt.seen.value.(phase := Failed);
      var alive := Save(a, env, i);
      if !alive {
        return Killed;
      }
      var s := RemoveOwned(env, i + 2);
      o := if s.Leave? then s.outcome else Raised(reason);
    }

    method Expire(env: Environment, i: nat) returns (o: Outcome)
      requires Valid() && Unmarked(world) && world.attempt.seen.Some? && world.attempt.seen.value.budget.Some?
      requires world.attempt.seen.value.budget.value.boot == world.boot
      requires world.attempt.seen.value.budget.value.deadline <= world.clock
      modifies this
      ensures Valid() && Fails(o, env, world)
    {
      o := FailAttempt(DeadlineExpired, env, i);
    }

    /** `result` does not qualify, or the report or the log does not. */
    method Disqualify(id: ContainerId, exit: Exit, env: Environment, i: nat) returns (o: Outcome)
      requires Valid() && Holds(world, id) && world.attempt.seen.value.budget.Some?
      requires world.docker[id].status == Exited(exit)
      requires || env.logs.TooLarge?
               || world.report.seen.None? || !world.report.seen.value.admitted
               || exit != Exit(0, false, "")
               || world.attempt.seen.value.budget.value.deadline < world.clock
      modifies this
      ensures Valid() && Fails(o, env, world)
    {
      assert Idle(world);
      o := FailAttempt(NotQualified, env, i);
    }

    /** `create`: a durable intent, the container, its durable identity. */
    method Create(owner: Owner, id: ContainerId, env: Environment, i: nat) returns (s: Step)
      requires Valid() && Unmarked(world) && world.docker == map[] && owner !in world.owners && id !in world.created
      modifies this
      ensures Valid()
      ensures s.Leave? ==> Interrupted(s.outcome, env)
      ensures s.Go? ==> Unmarked(world) && world.docker == map[id := Container(owner, world.mount, Ready)]
      ensures s.Go? ==> world.attempt == Stored(Some(Attempt(owner, world.mount, Some(id), None, Created)))
      ensures s.Go? ==> world.report == old(world.report) && Later(old(world), world)
    {
      var a := Attempt(owner, world.mount, None, None, Intent);
      var alive := Save(a, env, i);
      if !alive {
        return Leave(Killed);
      }
      assert world.docker == map[];
      s := CreateContainer(id, env, i + 2);
      if s.Leave? {
        return;
      }
      alive := Save(a.(container := Some(id), phase := Created), env, i + 3);
      s := if alive then Go else Leave(Killed);
    }
  
    method CreateContainer(id: ContainerId, env: Environment, i: nat) returns (s: Step)
      requires Valid() && Unmarked(world) && Enabled(world, DockerCreate(id))
      modifies this
      ensures Valid()
      ensures s.Leave? ==> Interrupted(s.outcome, env)
      ensures s.Go? ==> Unmarked(world) && world.attempt == old(world.attempt) && world.report == old(world.report)
      ensures s.Go? ==> world.mount == old(world.mount) && Later(old(world), world)
      ensures s.Go? ==>
                var a := world.attempt.seen.value; world.docker == map[id := Container(a.owner, a.mount, Ready)]
    {
      var gap := env.At(i);
      if gap.performed {
        Perform(DockerCreate(id));
      }
      var alive := PauseAt(env, i);
      if !alive {
        return Leave(Killed);
      }
      s := if gap.performed && gap.reported then Go else Leave(Raised(DaemonFailure));
    }

    /** The original budget is journalled once, durably, before the only start. */
    method JournalBudget(id: ContainerId, env: Environment, i: nat) returns (alive: bool)
      requires Valid() && Holds(world, id) && world.docker[id].status.Ready? && world.attempt.seen.value.budget.None?
      modifies this
      ensures Valid()
      ensures !alive ==> Interrupted(Killed, env)
      ensures alive ==> Holds(world, id) && world.docker[id].status.Ready? && Kept(old(world), world, id)
      ensures alive ==> world.attempt.seen == Some(old(world.attempt.seen.value)
                          .(budget := Some(Budget(world.boot, old(world.clock), old(world.clock) + TIMEOUT)),
                                      phase := Started))
    {
      assert world.attempt.seen in world.attempt.maybe;
      var budget := Budget(world.boot, world.clock, world.clock + TIMEOUT);
      alive := PauseAt(env, i); // the file is written and synced under its temporary name
      if alive {
        alive := SaveBudget(id, budget, env, i + 1);
      }
    }

    method SaveBudget(id: ContainerId, budget: Budget, env: Environment, i: nat) returns (alive: bool)
      requires Valid() && Holds(world, id) && world.docker[id].status.Ready? && world.attempt.seen.value.budget.None?
      requires budget.boot == world.boot && 0 < budget.start <= world.clock && budget.deadline == budget.start + TIMEOUT
      modifies this
      ensures Valid()
      ensures !alive ==> Interrupted(Killed, env)
      ensures alive ==> Holds(world, id) && world.docker[id].status.Ready? && Kept(old(world), world, id)
      ensures alive ==>
                world.attempt.seen == Some(old(world.attempt.seen.value).(budget := Some(budget), phase := Started))
    {
      assert world.attempt.seen in world.attempt.maybe;
      alive := Save(world.attempt.seen.value.(budget := Some(budget), phase := Started), env, i);
    }

    method StartCreated(id: ContainerId, env: Environment, i: nat) returns (s: Step)
      requires Valid() && Holds(world, id) && world.docker[id].status.Ready?
      requires world.attempt.seen.value.budget.Some? ==> world.attempt.seen.value.budget.value.boot == world.boot
      modifies this
      ensures Valid() && (s.Leave? ==> Fails(s.outcome, env, world))
      ensures s.Go? ==> Holds(world, id) && world.attempt.seen.value.budget.Some? && Kept(old(world), world, id)
      ensures s.Go? ==> !world.docker[id].status.Ready? && OnTime(world)
      ensures s.Go? && old(world.attempt.seen.value.budget).Some? ==>
                old(world.clock) < old(world.attempt.seen.value.budget).value.deadline
    {
      if world.attempt.seen.value.budget.None? {
        var alive := JournalBudget(id, env, i);
        if !alive {
          return Leave(Killed);
        }
      }
      if world.clock >= world.attempt.seen.value.budget.value.deadline {
        var o := Expire(env, i + 3);
        return Leave(o);
      }
      s := Start(id, env, i + 3);
    }

    method Start(id: ContainerId, env: Environment, i: nat) returns (s: Step)
      requires Valid() && Holds(world, id) && world.docker[id].status.Ready?
      requires world.attempt.seen.value.budget.Some? && world.attempt.seen.value.budget.value.boot == world.boot
      modifies this
      ensures Valid() && (s.Leave? ==> Fails(s.outcome, env, world))
      ensures s.Go? ==> Holds(world, id) && world.attempt.seen.value.budget.Some? && Kept(old(world), world, id)
      ensures s.Go? ==> !world.docker[id].status.Ready? && OnTime(world)
    {
      var gap := env.At(i);
      if gap.performed {
        Perform(DockerStart(id));
      }
      var alive := PauseAt(env, i);
      if !alive {
        return Leave(Killed);
      }
      s := if gap.performed && gap.reported then Go else Leave(Raised(DaemonFailure));
    }

    /** Inspection of the container this attempt owns. */
    method InspectHeld(id: ContainerId, env: Environment, i: nat) returns (look: Look)
      requires Valid() && Holds(world, id)
      modifies this
      ensures Valid() && (look.Blind? ==> Fails(look.outcome, env, world))
      ensures look.Saw? ==> Holds(world, id) && world.attempt == old(world.attempt) && Kept(old(world), world, id)
      ensures look.Saw? ==> look.container.Some? && look.container.value.0 == id
      ensures look.Saw? ==> Progress(look.container.value.1, world.docker[id].status)
      ensures look.Saw? ==> look.container.value.1 == old(world.docker[id].status)
    {
      look := Inspect(env, i);
    }

    /** Waits within the original budget and reads the terminal state. */
    method Await(id: ContainerId, env: Environment, i: nat) returns (s: Step, exit: Exit)
      requires Valid() && Holds(world, id)
      requires !world.docker[id].status.Ready? && OnTime(world)
      modifies this
      ensures Valid() && (s.Leave? ==> Fails(s.outcome, env, world))
      ensures s.Go? ==>
                Holds(world, id) && world.docker[id].status == Exited(exit) && world.attempt.seen.value.budget.Some?
      ensures s.Go? ==> Kept(old(world), world, id) && OnTime(world)
    {
      exit := Exit(0, false, "");
      assert world.attempt.seen in world.attempt.maybe;
      if world.attempt.seen.value.budget.None? {
        return Leave(Raised(NoDeadline)), exit;
      }
      var look := WaitFor(id, env, i);
      s, exit := Terminal(look, env, world);
    }

    /** The container as it is once it has exited, or `Blind` when the deadline came first. */
    method WaitFor(id: ContainerId, env: Environment, i: nat) returns (look: Look)
      requires Valid() && Holds(world, id) && !world.docker[id].status.Ready? && OnTime(world)
      modifies this
      ensures Valid() && (look.Blind? ==> Fails(look.outcome, env, world))
      ensures look.Saw? ==> Holds(world, id) && world.attempt == old(world.attempt) && Kept(old(world), world, id)
      ensures look.Saw? ==> look.container.Some? && look.container.value.0 == id
      ensures look.Saw? ==>
                look.container.value.1.Exited? && look.container.value.1 == world.docker[id].status
    {
      var remaining := world.attempt.seen.value.budget.value.deadline - world.clock;
      look := InspectHeld(id, env, i);
      if look.Saw? && look.container.Some? && look.container.value.1.Running? {
        if remaining <= 0 {
          var o := Expire(env, i + 1);
          return Blind(o);
        }
        var s := Wait(id, env, i + 5);
        if s.Leave? {
          return Blind(s.outcome);
        }
        look := InspectHeld(id, env, i + 11);
      }
    }

    /** `docker wait`, which ends with the container, but no later than what is left of the budget. */
    method Wait(id: ContainerId, env: Environment, i: nat) returns (s: Step)
      requires Valid() && Holds(world, id) && !world.docker[id].status.Ready? && OnTime(world)
      modifies this
      ensures Valid() && (s.Leave? ==> Fails(s.outcome, env, world))
      ensures s.Go? ==> Holds(world, id) && world.attempt == old(world.attempt) && Kept(old(world), world, id)
      ensures s.Go? ==> world.docker[id].status.Exited?
    {
      var deadline := world.attempt.seen.value.budget.value.deadline;
      var alive := PauseAt(env, i);
      if !alive {
        return Leave(Killed);
      }
      if world.docker[id].status.Running? || (!env.waited && deadline <= world.clock) {
        if world.clock < deadline {
          Perform(Tick(deadline));
        }
        var o := Expire(env, i + 1);
        return Leave(o);
      }
      s := if env.At(i).reported then Go else Leave(Raised(DaemonFailure));
    }

    static method Terminal(look: Look, ghost env: Environment, ghost n: World) returns (s: Step, exit: Exit)
      requires if look.Blind? then Fails(look.outcome, env, n)
               else look.container.Some? && look.container.value.1.Exited?
      ensures s.Leave? ==> Fails(s.outcome, env, n)
      ensures s.Go? ==> look.Saw? && look.container.Some? && look.container.value.1 == Exited(exit)
    {
      exit := Exit(0, false, "");
      if look.Blind? {
        s := Leave(look.outcome);
      } else if look.container.None? {
        s := Leave(Raised(Disappeared));
      } else if !look.container.value.1.Exited? {
        s := Leave(Raised(NoTerminalResult));
      } else {
        s, exit := Go, look.container.value.1.exit;
      }
    }

    /** `retain_logs`: the log and the directory are durable before the marker. */
    method RetainLogs(id: ContainerId, exit: Exit, env: Environment, i: nat) returns (s: Step)
      requires Valid() && Holds(world, id) && world.attempt.seen.value.budget.Some?
      requires world.docker[id].status == Exited(exit)
      modifies this
      ensures Valid() && (s.Leave? ==> Fails(s.outcome, env, world))
      ensures s.Go? ==> Holds(world, id) && world.attempt == old(world.attempt) && Kept(old(world), world, id)
      ensures s.Go? ==> Still(old(world), world) && env.logs.Retained? && world.log == File(Some(env.logs.text), true)
    {
      var alive := OpenLog(id, env, i);
      if !alive {
        return Leave(Killed);
      }
      match env.logs
      case Unreadable =>
        s := Leave(Raised(LogsUnreadable));
      case TooLarge =>
        var o := Disqualify(id, exit, env, i + 1);
        s := Leave(o);
      case Retained(text) =>
        s := SyncLog(id, text, env, i + 1);
    }

    method OpenLog(id: ContainerId, env: Environment, i: nat) returns (alive: bool)
      requires Valid() && Holds(world, id) && Idle(world)
      modifies this
      ensures Valid()
      ensures !alive ==> Interrupted(Killed, env)
      ensures alive ==> Holds(world, id) && world.attempt == old(world.attempt) && Later(old(world), world)
      ensures alive ==> Still(old(world), world)
    {
      Perform(WriteLog("", false));
      alive := PauseAt(env, i);
    }

    method SyncLog(id: ContainerId, text: string, env: Environment, i: nat) returns (s: Step)
      requires Valid() && Holds(world, id) && Idle(world)
      modifies this
      ensures Valid() && (s.Leave? ==> Interrupted(s.outcome, env))
      ensures s.Go? ==> Holds(world, id) && world.attempt == old(world.attempt) && Kept(old(world), world, id)
      ensures s.Go? ==> Still(old(world), world) && world.log == File(Some(text), true)
    {
      Perform(WriteLog(text, true));
      var alive := PauseAt(env, i);
      if !alive {
        return Leave(Killed);
      }
      Perform(SyncDirectory);
      alive := PauseAt(env, i + 1);
      s := if alive then Go else Leave(Killed);
    }

    /** `complete`: the only success marker, for a qualifying result and an admitted report, recorded as they are. */
    method MarkComplete(id: ContainerId, result: Observation, env: Environment, i: nat) returns (s: Step)
      requires Valid() && Holds(world, id) && Observed(world, id, result) && OnTime(world)
      requires world.log.settled && world.log.content.Some?
      modifies this
      ensures Valid() && (s.Leave? ==> Fails(s.outcome, env, world))
      ensures s.Go? ==> Complete(world) && Later(old(world), world)
      ensures s.Go? ==> WithinBudget(result, old(world.attempt.seen.value)) && old(world.report.seen).Some?
                        && old(world.report.seen).value.admitted
      ensures s.Go? ==>
                world.complete.seen == Some(Receipt(result, old(world.attempt.seen.value), old(world.report.seen).value,
                                                            old(world.log.content).value))
    {
      var a := world.attempt.seen.value;
      assert world.attempt.seen in world.attempt.maybe;
      if !WithinBudget(result, a) || world.report.seen.None? || !world.report.seen.value.admitted {
        var o := Disqualify(id, result.exit, env, i);
        return Leave(o);
      }
      s := SettleAndPublish(id, result, env, i);
    }

    method SettleAndPublish(id: ContainerId, result: Observation, env: Environment, i: nat) returns (s: Step)
      requires Valid() && Holds(world, id) && Observed(world, id, result)
      requires world.log.settled && world.log.content.Some? && world.report.seen.Some?
      requires world.report.seen.value.admitted
      requires WithinBudget(result, world.attempt.seen.value)
      modifies this
      ensures Valid() && (s.Leave? ==> Fails(s.outcome, env, world))
      ensures s.Go? ==> Complete(world) && Later(old(world), world)
      ensures s.Go? ==>
                world.complete.seen == Some(Receipt(result, old(world.attempt.seen.value), old(world.report.seen.value),
                                                            old(world.log.content.value)))
    {
      var receipt := Receipt(result, world.attempt.seen.value, world.report.seen.value, world.log.content.value);
      assert Idle(world);
      var alive := PauseAt(env, i); // report and log are synced, their directory is not
      if !alive {
        return Leave(Killed);
      }
      Perform(SettleReport);
      alive := PauseAt(env, i + 1);
      if !alive {
        return Leave(Killed);
      }
      s := PublishMarker(receipt, env, i + 2);
    }

    method PublishMarker(receipt: Receipt, env: Environment, i: nat) returns (s: Step)
      requires Valid() && Enabled(world, Publish(receipt))
      modifies this
      ensures Valid() && (s.Leave? ==> Fails(s.outcome, env, world))
      ensures s.Go? ==> Complete(world) && world.complete.seen == Some(receipt) && Later(old(world), world)
    {
      Perform(Publish(receipt));
      var alive := PauseAt(env, i);
      if !alive {
        return Leave(Killed);
      }
      Perform(SyncDirectory);
      alive := PauseAt(env, i + 1);
      s := if alive then Go else Leave(Killed);
    }
  
    /** The completed branch: only an exited container may be left over, and it is removed. */
    method Finished(env: Environment) returns (o: Outcome)
      requires Valid() && Complete(world)
      modifies this
      ensures Valid() && KeepsComplete(old(world), world)
      ensures Fails(o, env, world) || (o.Done? && o.origin.FromCheckpoint? && Returns(world, o.report))
    {
      assert world.complete.seen in world.complete.maybe;
      if !ReceiptHolds(world) {
        return Raised(Corrupt);
      }
      var report := world.complete.seen.value.report;
      var look := Inspect(env, 0);
      if look.Blind? {
        return look.outcome;
      }
      if look.container.Some? {
        if !look.container.value.1.Exited? {
          return Raised(LiveCompleted);
        }
        var s := RemoveOwned(env, 1);
        if s.Leave? {
          return s.outcome;
        }
      }
      MarkerIsEarned(world);
      o := Done(report, FromCheckpoint);
    }

    /** A fresh attempt: unfinished files go, then the container is created and found again. */
    method Restart(owner: Owner, id: ContainerId, env: Environment, i: nat) returns (s: Step)
      requires Valid() && Unmarked(world) && world.docker == map[] && owner !in world.owners && id !in world.created
      modifies this
      ensures Valid() && (s.Leave? ==> Fails(s.outcome, env, world))
      ensures s.Go? ==> Holds(world, id) && world.docker[id].status.Ready? && world.attempt.seen.value.budget.None?
      ensures s.Go? ==> world.report.seen.None? && Later(old(world), world)
    {
      var alive := ResetUnfinished(env, i);
      if !alive {
        return Leave(Killed);
      }
      s := Create(owner, id, env, i + 1);
      if s.Go? {
        s := FindCreated(id, env, i + 6);
      }
    }

    /** `reset_unfinished`: the report and the log of an earlier attempt are unlinked. */
    method ResetUnfinished(env: Environment, i: nat) returns (alive: bool)
      requires Valid() && Unmarked(world) && world.docker == map[]
      modifies this
      ensures Valid()
      ensures !alive ==> Interrupted(Killed, env)
      ensures alive ==> Unmarked(world) && world.docker == map[] && world.report.seen.None? && Later(old(world), world)
      ensures alive ==> world.owners == old(world.owners) && world.created == old(world.created)
    {
      Perform(Reset);
      alive := PauseAt(env, i);
    }

    method FindCreated(id: ContainerId, env: Environment, i: nat) returns (s: Step)
      requires Valid() && Holds(world, id) && world.docker[id].status.Ready? && world.attempt.seen.value.budget.None?
      requires world.report.seen.None?
      modifies this
      ensures Valid() && (s.Leave? ==> Fails(s.outcome, env, world))
      ensures s.Go? ==> Holds(world, id) && world.docker[id].status.Ready? && world.attempt.seen.value.budget.None?
      ensures s.Go? ==> world.report.seen.None? && Later(old(world), world)
    {
      var look := Inspect(env, i);
      s := if look.Blind? then Leave(look.outcome) else if look.container.None? then Leave(Raised(Disappeared)) else Go;
    }

    /** An existing container of this attempt: its identity is journalled if only its name was. */
    method Reattach(id: ContainerId, status: Status, env: Environment, i: nat) returns (s: Step)
      requires Valid() && Unmarked(world) && world.attempt.Synced() && world.attempt.seen.Some?
      requires id in world.docker && Progress(status, world.docker[id].status)
      modifies this
      ensures Valid() && (s.Leave? ==> Fails(s.outcome, env, world))
      ensures s.Go? ==> Holds(world, id) && world.attempt.seen.value.budget == old(world.attempt.seen.value.budget)
      ensures s.Go? ==> Later(old(world), world) && Progress(status, world.docker[id].status)
    {
      var a := world.attempt.seen.value;
      assert world.attempt.seen in world.attempt.maybe;
      if a.container.Some? {
        return Go;
      }
      if !status.Ready? {
        return Leave(Raised(UnjournalledExecution));
      }
      var alive := Save(a.(container := Some(id), phase := Created), env, i);
      s := if alive then Go else Leave(Killed);
    }

    /** From the inspected container to a removed one with a durable marker. */
    method RunToEnd(id: ContainerId, status: Status, origin: Origin, env: Environment, i: nat) returns (o: Outcome)
      requires Valid() && Holds(world, id) && Progress(status, world.docker[id].status) && !BootMoved(world)
      modifies this
      ensures Valid()
      ensures Fails(o, env, world) || (o.Done? && o.origin == origin && Returns(world, o.report))
      ensures o.Done? ==> MarkedSince(old(world), world) && (Authored(old(world), id) ==> o.report.writer == id)
    {
      if status.Ready? {
        var started := StartCreated(id, env, i);
        if started.Leave? {
          return started.outcome;
        }
      }
      assert world.attempt.seen in world.attempt.maybe;
      var s, exit := Await(id, env, i + 10);
      if s.Leave? {
        return s.outcome;
      }
      o := Conclude(id, exit, origin, env, i + 20);
    }

    method Conclude(id: ContainerId, exit: Exit, origin: Origin, env: Environment, i: nat) returns (o: Outcome)
      requires Valid() && Holds(world, id) && world.docker[id].status == Exited(exit) && OnTime(world)
      modifies this
      ensures Valid()
      ensures Fails(o, env, world) || (o.Done? && o.origin == origin && Returns(world, o.report))
      ensures o.Done? ==> MarkedSince(old(world), world) && (Authored(old(world), id) ==> o.report.writer == id)
    {
      var s := Mark(id, exit, env, i);
      if s.Leave? {
        return s.outcome;
      }
      s := RemoveOwned(env, i + 20);
      if s.Leave? {
        return s.outcome;
      }
      MarkerIsEarned(world);
      o := Done(world.complete.seen.value.report, origin);
    }

    method MarkRead(id: ContainerId, result: Observation, env: Environment, i: nat) returns (s: Step)
      requires Valid() && Holds(world, id) && Observed(world, id, result) && OnTime(world)
      requires world.log.settled && world.log.content.Some?
      modifies this
      ensures Valid() && (s.Leave? ==> Fails(s.outcome, env, world))
      ensures s.Go? ==> Complete(world) && world.complete.seen.value.result == result && Later(old(world), world)
      ensures s.Go? ==> world.attempt.seen.Some?
      ensures s.Go? && Authored(old(world), id) ==> world.complete.seen.value.report.writer == id
    {
      s := MarkComplete(id, result, env, i);
      if s.Go? {
        assert world.complete.seen in world.complete.maybe;
      }
    }

    /** The observation is taken before the logs are retained. */
    method Mark(id: ContainerId, exit: Exit, env: Environment, i: nat) returns (s: Step)
      requires Valid() && Holds(world, id) && world.docker[id].status == Exited(exit) && OnTime(world)
      modifies this
      ensures Valid() && (s.Leave? ==> Fails(s.outcome, env, world))
      ensures s.Go? ==> Complete(world) && (Authored(old(world), id) ==> world.complete.seen.value.report.writer == id)
      ensures s.Go? ==> world.attempt.seen.Some? && MarkedSince(old(world), world)
    {
      var result := Observation(exit, world.boot, world.clock);
      ghost var ended := world;
      ObservedNow(ended, id, exit);
      s := RetainLogs(id, exit, env, i);
      if s.Go? {
        ObservedStill(ended, world, id, result);
        s := MarkRead(id, result, env, i + 10);
      }
    }

    method StartOver(owner: Owner, id: ContainerId, env: Environment, i: nat) returns (o: Outcome)
      requires Valid() && Unmarked(world) && world.docker == map[] && owner !in world.owners && id !in world.created
      modifies this
      ensures Valid()
      ensures Fails(o, env, world) || (o.Done? && o.origin.Fresh? && Returns(world, o.report))
      ensures o.Done? ==> MarkedSince(old(world), world) && o.report.writer == id
    {
      var s := Restart(owner, id, env, i);
      if s.Leave? {
        return s.outcome;
      }
      o := RunToEnd(id, Ready, Fresh, env, i + 10);
    }

    /** Work that is not complete yet. */
    method Resume(owner: Owner, id: ContainerId, env: Environment) returns (o: Outcome)
      requires Valid() && Unmarked(world) && world.attempt.Synced() && owner !in world.owners && id !in world.created
      modifies this
      ensures Valid()
      ensures Fails(o, env, world) || (o == Raised(BootChanged) && BootMoved(old(world)) && Abandoned(world))
              || (o.Done? && !o.origin.FromCheckpoint? && Returns(world, o.report))
      ensures o.Done? ==> MarkedSince(old(world), world) && (o.origin.Fresh? ==> o.report.writer == id)
      ensures o.Done? ==> (o.origin.Reattached? <==> GoesOn(old(world), old(world.mount)))
      ensures BootMoved(old(world)) && old(world.docker) != map[] ==> o == Raised(BootChanged) || Interrupted(o, env)
    {
      if world.attempt.seen.None? {
        NothingJournalled(world);
        o := StartOver(owner, id, env, 0);
        return;
      }
      var look := Inspect(env, 0);
      if look.Blind? {
        return look.outcome;
      }
      o := ResumeInspected(owner, id, look.container, env);
    }

    method RemoveAndStartOver(owner: Owner, id: ContainerId, env: Environment) returns (o: Outcome)
      requires Valid() && Unmarked(world) && world.attempt.seen.Some? && Removable(world)
      requires owner !in world.owners && id !in world.created
      modifies this
      ensures Valid()
      ensures Fails(o, env, world) || (o.Done? && o.origin.Fresh? && Returns(world, o.report))
      ensures o.Done? ==> MarkedSince(old(world), world) && o.report.writer == id
    {
      var s := RemoveOwned(env, 1);
      if s.Leave? {
        return s.outcome;
      }
      o := StartOver(owner, id, env, 3);
    }

    /** A fresh attempt, after removing what the one before owned if it is given up or elsewhere. */
    method Anew(owner: Owner, id: ContainerId, discard: bool, env: Environment) returns (o: Outcome)
      requires Valid() && Unmarked(world) && world.attempt.seen.Some? && owner !in world.owners && id !in world.created
      requires if discard then Removable(world) else world.docker == map[]
      modifies this
      ensures Valid()
      ensures Fails(o, env, world) || (o.Done? && o.origin.Fresh? && Returns(world, o.report))
      ensures o.Done? ==> MarkedSince(old(world), world) && o.report.writer == id
    {
      if discard {
        o := RemoveAndStartOver(owner, id, env);
      } else {
        o := StartOver(owner, id, env, 1);
      }
    }

    /** The found container of this boot and mount is run to its end. */
    method GoOn(id: ContainerId, status: Status, env: Environment) returns (o: Outcome)
      requires Valid() && Unmarked(world) && world.attempt.Synced() && world.attempt.seen.Some? && !BootMoved(world)
      requires id in world.docker && Progress(status, world.docker[id].status)
      modifies this
      ensures Valid()
      ensures Fails(o, env, world) || (o.Done? && o.origin.Reattached? && Returns(world, o.report))
      ensures o.Done? ==> MarkedSince(old(world), world)
    {
      var s := Reattach(id, status, env, 1);
      if s.Leave? {
        return s.outcome;
      }
      o := RunToEnd(id, status, Reattached, env, 20);
    }

    method ResumeInspected(owner: Owner, id: ContainerId, found: Option<(ContainerId, Status)>, env: Environment)
      returns (o: Outcome)
      requires Valid() && Unmarked(world) && world.attempt.Synced() && world.attempt.seen.Some?
      requires owner !in world.owners && id !in world.created
      requires found.None? ==> world.docker == map[]
      requires found.Some? ==>
                 found.value.0 in world.docker && Progress(found.value.1, world.docker[found.value.0].status)
      modifies this
      ensures Valid()
      ensures Fails(o, env, world) || (o == Raised(BootChanged) && BootMoved(old(world)) && Abandoned(world))
              || (o.Done? && !o.origin.FromCheckpoint? && Returns(world, o.report))
      ensures o.Done? ==> MarkedSince(old(world), world) && (o.origin.Fresh? ==> o.report.writer == id)
      ensures o.Done? ==> (o.origin.Reattached? <==> GoesOn(old(world), old(world.mount)))
      ensures BootMoved(old(world)) && old(world.docker) != map[] ==> o == Raised(BootChanged) || Interrupted(o, env)
    {
      var a := world.attempt.seen.value;
      if found.Some? && a.budget.Some? && a.budget.value.boot != world.boot {
        o := FailAttempt(BootChanged, env, 1);
        return;
      }
      if found.None? || a.phase.Failed? || a.mount != world.mount {
        o := Anew(owner, id, a.phase.Failed? || a.mount != world.mount, env);
        return;
      }
      o := GoOn(found.value.0, found.value.1, env);
    }

    method Open(mount: string)
      requires Valid()
      modifies this
      ensures Valid() && KeepsComplete(old(world), world)
      ensures world.attempt == Stored(old(world.attempt.seen)) && world.complete == Stored(old(world.complete.seen))
      ensures world.owners == old(world.owners) && world.created == old(world.created) && Later(old(world), world)
      ensures world.mount == mount && world.docker == old(world.docker)
    {
      Perform(Relocate(mount));
      Perform(SyncDirectory);
    }

    method Proceed(owner: Owner, id: ContainerId, env: Environment) returns (o: Outcome)
      requires Valid() && owner !in world.owners && id !in world.created && world.attempt.Synced()
      requires world.complete.Synced()
      modifies this
      ensures Valid() && KeepsComplete(old(world), world)
      ensures Fails(o, env, world) || (o == Raised(BootChanged) && BootMoved(old(world)) && Abandoned(world)) || o.Done?
      ensures o.Done? ==> Returns(world, o.report)
      ensures o.Done? ==> (o.origin.FromCheckpoint? <==> old(world.complete.seen.Some?))
      ensures o.Done? && !o.origin.FromCheckpoint? ==> MarkedSince(old(world), world)
      ensures o.Done? && !o.origin.FromCheckpoint? ==>
                (o.origin.Reattached? <==> GoesOn(old(world), old(world.mount)))
      ensures old(world.complete.seen.None?) && BootMoved(old(world)) && old(world.docker) != map[] ==>
                o == Raised(BootChanged) || Interrupted(o, env)
      ensures o.Done? && o.origin.Fresh? ==> o.report.writer == id
    {
      if world.complete.seen.Some? {
        o := Finished(env);
      } else {
        o := Resume(owner, id, env);
      }
    }

    /**
     One controller: the checkpoint directory is opened, and thereby synced, and the partition executed.
     A completed partition is returned as recorded; otherwise a result is returned only with a durable
     marker, for a result read in this call, and no container left. Every marked exit lies between the
     start and the deadline of its budget. The guarded impossibilities are never met.
     */
    method Execute(mount: string, owner: Owner, id: ContainerId, env: Environment) returns (o: Outcome)
      requires Valid() && owner !in world.owners && id !in world.created
      modifies this
      ensures Valid() && KeepsComplete(old(world), world)
      ensures Fails(o, env, world) || (o == Raised(BootChanged) && BootMoved(old(world)) && Abandoned(world)) || o.Done?
      ensures o.Done? ==> Returns(world, o.report)
      ensures o.Done? ==> (o.origin.FromCheckpoint? <==> old(world.complete.seen.Some?))
      ensures o.Done? && !o.origin.FromCheckpoint? ==> MarkedSince(old(world), world)
      ensures o.Done? && !o.origin.FromCheckpoint? ==> (o.origin.Reattached? <==> GoesOn(old(world), mount))
      ensures old(world.complete.seen.None?) && BootMoved(old(world)) && old(world.docker) != map[] ==>
                o == Raised(BootChanged) || Interrupted(o, env)
      ensures o.Done? && o.origin.Fresh? ==> o.report.writer == id
    {
      Open(mount);
      o := Proceed(owner, id, env);
    }
  }
}
