/**
 The release operator's invocations as code over the shared world.

 `log` records every effect since the empty directory, so `Valid()` says that the object is at the
 end of a run of ReleaseOperator (`LogIsRun`). Between any two effects of an invocation,
 `Interfere` lets any other invocation act, kills this one, or cuts the power.
 */
module OperatorHost {
  import opened Prelude
  import opened Durable
  import opened ReleaseOperator

  datatype Outcome =
    | Blocked                 // the lock is held: flock keeps the invocation waiting
    | Killed
    | Existing(run: int)
    | Unknown(phase: Phase)
    | Accepted
    | Partial
    | Refused

  /** What may happen to the world, and what GitHub answers if it is a run that is found. */
  datatype Event = Event(action: Action, direct: Result<Run, Failure>, answers: seq<Answer>)

  /** What GitHub and the other invocations do during one invocation. */
  datatype Environment = Environment(gaps: seq<seq<Event>>, direct: Result<Run, Failure>, answers: seq<Answer>,
                                     witnessed: bool, accepted: bool, successful: bool)
  {
    function Gap(i: nat): seq<Event> {
      if i < |gaps| then gaps[i] else []
    }
  }

  function Actor(a: Action): Option<Pid> {
    if a.PowerLoss? then None else Some(a.pid)
  }

  /** Invocation `pid` is killed, or the power fails. */
  predicate Ends(pid: Pid, a: Action) {
    a == Leave(pid) || a.PowerLoss?
  }

  ghost predicate Killing(pid: Pid, env: Environment) {
    exists i, e :: 0 <= i < |env.gaps| && e in env.gaps[i] && Ends(pid, e.action)
  }

  /** Each effect with the listing that its run was found in, if it had to be looked for. */
  datatype Log = Origin | Then(before: Log, action: Action, answers: seq<Answer>)

  /** The world after the logged effects. */
  ghost function End(log: Log): World {
    match log
    case Origin => START
    case Then(before, a, _) => if Enabled(End(before), a) then Apply(End(before), a) else End(before)
  }

  /** `a` may happen now: a run that has to be looked for is one that reconciliation finds. */
  ghost predicate Permitted(w: World, a: Action, answers: seq<Answer>) {
    Enabled(w, a) && (Searches(w, a) ==> FoundIn(answers, w.procs[a.pid].record, a.run))
  }

  ghost predicate Legal(log: Log) {
    log.Then? ==> Legal(log.before) && Permitted(End(log.before), log.action, log.answers)
  }

  ghost function Worlds(log: Log): seq<World> {
    if log.Origin? then [START] else Worlds(log.before) + [End(log)]
  }

  ghost function Actions(log: Log): seq<Action> {
    if log.Origin? then [] else Actions(log.before) + [log.action]
  }

  ghost function Listings(log: Log): seq<seq<Answer>> {
    if log.Origin? then [] else Listings(log.before) + [log.answers]
  }

  /** What the code did is a run, so every theorem about runs holds of it. */
  lemma {:induction false} LogIsRun(log: Log)
    requires Legal(log)
    ensures IsRun(Worlds(log), Actions(log)) && Final(Worlds(log)) == End(log)
  {
    if log.Then? {
      LogIsRun(log.before);
      ExtendRun(Worlds(log.before), Actions(log.before), log.action);
    }
  }

  /** Whatever was looked for, its listing shows no other run than `id` under the title. */
  ghost predicate OneTitleSeen(log: Log, id: int)
    requires Legal(log)
  {
    log.Then? ==>
      && OneTitleSeen(log.before, id)
      && (Searches(End(log.before), log.action) ==>
            OneTitle(log.answers, End(log.before).procs[log.action.pid].record, id))
  }

  lemma {:induction false} HostListings(log: Log, id: int)
    requires Legal(log) && OneTitleSeen(log, id)
    ensures IsRun(Worlds(log), Actions(log)) && OneRunListed(Worlds(log), Actions(log), Listings(log), id)
    ensures Final(Worlds(log)) == End(log)
  {
    LogIsRun(log);
    if log.Then? {
      HostListings(log.before, id);
      var worlds, actions, listings := Worlds(log.before), Actions(log.before), Listings(log.before);
      var n := |actions|;
      LogIsRun(log.before);
      forall k | 0 <= k < n + 1 && Searches(Worlds(log)[k], Actions(log)[k])
        ensures FoundIn(Listings(log)[k], Worlds(log)[k].procs[Actions(log)[k].pid].record, Actions(log)[k].run)
        ensures OneTitle(Listings(log)[k], Worlds(log)[k].procs[Actions(log)[k].pid].record, id)
      {
        if k < n { assert Searches(worlds[k], actions[k]); }
      }
    }
  }

  /** If the listings show one run under the title, only an unsynced power loss takes a recorded run id away. */
  lemma HostRunIdWriteOnce(log: Log, id: int, i: nat)
    requires Legal(log) && OneTitleSeen(log, id) && i < |Actions(log)|
    requires IsRun(Worlds(log), Actions(log))
    requires Worlds(log)[i].file.seen.Some? && Worlds(log)[i].file.seen.value.runId.Some?
    ensures Recorded(Worlds(log)[i], id)
    ensures Recorded(Worlds(log)[i+1], id) || (Actions(log)[i].PowerLoss? && !Worlds(log)[i].file.Synced())
  {
    HostListings(log, id);
    RunIdWriteOnce(Worlds(log), Actions(log), Listings(log), id, i);
  }

  /** How many POSTs invocation `pid` sent. */
  ghost function Sends(pid: Pid, log: Log): nat {
    if log.Origin? then 0 else Sends(pid, log.before) + if log.action == Post(pid) then 1 else 0
  }

  /** Over everything the code does, all invocations together send at most one POST. */
  lemma {:induction false} HostSendsOnce(log: Log, p: Pid, q: Pid)
    requires Legal(log) && p != q
    ensures Sends(p, log) + Sends(q, log) <= End(log).posts <= 1
  {
    LogIsRun(log);
    RunKeepsInvariant(Worlds(log), Actions(log));
    assert Final(Worlds(log)) in Worlds(log);
    if log.Then? {
      HostSendsOnce(log.before, p, q);
    }
  }

  /** The record names `run` and no power loss can undo it. */
  ghost predicate Adopted(file: Disk<Option<Record>>, run: int) {
    file.Synced() && file.seen.Some? && file.seen.value.phase.Reconciled? && file.seen.value.runId == Some(run)
  }

  /** The record that an invocation goes by: the stored one, or a new one. */
  function InitialRecord(stored: Option<Record>, requestId: string, binding: Binding): Record {
    if stored.Some? then stored.value else Record(requestId, binding, Prepared, None)
  }

  /** The request is not the one that was read any more. */
  predicate Changed(record: Record, file: Disk<Option<Record>>) {
    file.seen.None? || file.seen.value.binding != record.binding
  }

  /** The durable record says what the outcome says; one that stays unknown may not be durable. */
  ghost predicate Leaves(record: Record, file: Disk<Option<Record>>, o: Outcome) {
    match o
    case Existing(run) => file == Stored(Some(record.(phase := Reconciled, runId := Some(run))))
    case Accepted => file == Stored(Some(record.(phase := Submitted)))
    case Unknown(phase) => file.seen == Some(record.(phase := phase))
    case _ => true
  }

  /** What one invocation comes to that is not killed, from the record it starts with and what GitHub answers. */
  ghost predicate Decides(record: Record, env: Environment, o: Outcome) {
    match o
    case Existing(run) => FindsRun(record, env.direct, env.answers, run)
    case Accepted =>
      FindsNone(record, env.direct, env.answers) && record.phase.Prepared? && env.witnessed && env.accepted
    case Unknown(phase) =>
      || (!Conclusive(record, env.direct, env.answers) && phase == record.phase)
      || (FindsNone(record, env.direct, env.answers) &&
          if record.phase.Prepared? && env.witnessed then !env.accepted && phase.Uncertain? else phase == record.phase)
    case _ => false
  }

  /** So the outcome is determined. */
  lemma DecidesOnce(record: Record, env: Environment, o: Outcome, other: Outcome)
    requires Decides(record, env, o) && Decides(record, env, other)
    ensures o == other
  {
    if o.Existing? { FindsOnce(record, env.direct, env.answers, o.run); }
    if other.Existing? { FindsOnce(record, env.direct, env.answers, other.run); }
  }

  class Operator {
    var world: World
    ghost var log: Log

    ghost predicate Valid()
      reads this
    {
      Legal(log) && End(log) == world && Invariant(world)
    }

    constructor ()
      ensures Valid() && world == START && log == Origin
    {
      world, log := START, Origin;
    }

    method Perform(a: Action, ghost answers: seq<Answer>)
      requires Valid() && Permitted(world, a, answers)
      modifies this
      ensures Valid() && log == Then(old(log), a, answers) && world == Apply(old(world), a)
    {
      InvariantStep(world, a);
      world := Apply(world, a);
      log := Then(log, a, answers);
    }

    /** One event, if it can happen now; another invocation finds its run as this one does. */
    method Happen(event: Event)
      requires Valid()
      modifies this
      ensures Valid()
      ensures if log == old(log) then world == old(world)
              else Enabled(old(world), event.action) && log == Then(old(log), event.action, event.answers)
                   && world == Apply(old(world), event.action)
    {
      var a := event.action;
      if Enabled(world, a) {
        if Searches(world, a) {
          var found := Search(world.procs[a.pid].record, event.direct, event.answers);
          if found == Ok(Some(a.run)) { Perform(a, event.answers); }
        } else {
          Perform(a, event.answers);
        }
      }
    }

    /** Others act; they send nothing for `pid` and cannot touch the file while `pid` holds the lock. */
    method Interfere(pid: Pid, others: seq<Event>) returns (alive: bool)
      requires Valid() && pid in world.procs
      modifies this
      ensures Valid() && Sends(pid, log) == old(Sends(pid, log))
      ensures alive <==> pid in world.procs
      ensures !alive ==> exists e :: e in others && Ends(pid, e.action)
      ensures alive ==> world.procs[pid] == old(world.procs[pid])
      ensures alive && old(world.holder) == Some(pid) ==> world.holder == Some(pid) && world.file == old(world.file)
    {
      for i := 0 to |others|
        invariant Valid() && Sends(pid, log) == old(Sends(pid, log))
        invariant pid in world.procs ==> world.procs[pid] == old(world.procs[pid])
        invariant pid !in world.procs ==> exists e :: e in others && Ends(pid, e.action)
        invariant pid in world.procs && old(world.holder) == Some(pid) ==>
                    world.holder == Some(pid) && world.file == old(world.file)
      {
        var a := others[i].action;
        if a.Leave? || Actor(a) != Some(pid) {
          assert others[i] in others;
          Happen(others[i]);
        }
      }
      alive := pid in world.procs;
    }

    /** One effect of this invocation, then whatever happens before its next one. */
    method Act(pid: Pid, a: Action, env: Environment, i: nat) returns (alive: bool)
      requires Valid() && Permitted(world, a, env.answers) && Actor(a) == Some(pid) && pid in Apply(world, a).procs
      modifies this
      ensures Valid() && Sends(pid, log) == old(Sends(pid, log)) + if a.Post? then 1 else 0
      ensures alive <==> pid in world.procs
      ensures !alive ==> Killing(pid, env)
      ensures alive ==> world.procs[pid] == Apply(old(world), a).procs[pid]
      ensures alive && Apply(old(world), a).holder == Some(pid) ==>
                world.holder == Some(pid) && world.file == Apply(old(world), a).file
    {
      Perform(a, env.answers);
      alive := Interfere(pid, env.Gap(i));
    }

    /** The last effect of this invocation. */
    method Finish(pid: Pid, a: Action)
      requires Valid() && Enabled(world, a) && Actor(a) == Some(pid) && !a.Post? && !Searches(world, a)
      modifies this
      ensures Valid() && Sends(pid, log) == old(Sends(pid, log)) && world == Apply(old(world), a)
    {
      Perform(a, []);
    }

    /**
     Sends a POST only when the visible record is absent or prepared, so never after another
     invocation may have sent one; an accepted submission is on disk before it is reported. Unless the
     lock is held or the invocation is killed, what it comes to is decided by the record and the answers.
     */
    method DispatchAdmitted(pid: Pid, requestId: string, binding: Binding, env: Environment) returns (o: Outcome)
      requires Valid() && pid !in world.procs
      modifies this
      ensures Valid()
      ensures old(Sends(pid, log)) <= Sends(pid, log) <= old(Sends(pid, log)) + 1
      ensures !Unsent(old(world.file.seen)) ==> Sends(pid, log) == old(Sends(pid, log))
      ensures o.Accepted? ==> Sends(pid, log) == old(Sends(pid, log)) + 1
      ensures o.Accepted? ==> world.file.Synced() && !Unsent(world.file.seen)
      ensures o.Existing? || (o.Unknown? && o.phase.Prepared?) ==> Sends(pid, log) == old(Sends(pid, log))
      ensures o.Existing? ==> Adopted(world.file, o.run)
      ensures o.Blocked? <==> old(world.holder).Some?
      ensures o.Killed? ==> Killing(pid, env)
      ensures !o.Blocked? && !o.Killed? ==> Decides(InitialRecord(old(world.file.seen), requestId, binding), env, o)
      ensures Leaves(InitialRecord(old(world.file.seen), requestId, binding), world.file, o)
    {
      if world.holder.Some? {
        return Blocked;
      }
      var alive := Open(pid, requestId, binding, env);
      if !alive { return Killed; }
      o := Proceed(pid, env);
    }

    /** The lock, and the stored record; a new one is durable before the first network read. */
    method Open(pid: Pid, requestId: string, binding: Binding, env: Environment) returns (alive: bool)
      requires Valid() && pid !in world.procs && world.holder.None?
      modifies this
      ensures Valid() && Sends(pid, log) == old(Sends(pid, log))
      ensures !alive ==> Killing(pid, env)
      ensures alive ==> pid in world.procs && world.holder == Some(pid)
      ensures alive ==> world.procs[pid] == Looking(InitialRecord(old(world.file.seen), requestId, binding))
      ensures alive && !Unsent(old(world.file.seen)) ==> !Unsent(world.file.seen)
    {
      alive := Act(pid, Acquire(pid), env, 0);
      if !alive { return; }
      alive := Act(pid, Load(pid), env, 1);
      if !alive { return; }
      if world.procs[pid].Absent? {
        alive := Act(pid, Announce(pid, Record(requestId, binding, Prepared, None)), env, 2);
        if !alive { return; }
        alive := Act(pid, SyncDirectory(pid), env, 3);
      }
    }

    /** From the first listing on: adopt a visible run, stop, or send once. */
    method Proceed(pid: Pid, env: Environment) returns (o: Outcome)
      requires Valid() && pid in world.procs && world.procs[pid].Looking? && world.holder == Some(pid)
      modifies this
      ensures Valid()
      ensures old(Sends(pid, log)) <= Sends(pid, log) <= old(Sends(pid, log)) + 1
      ensures !Unsent(old(world.file.seen)) ==> Sends(pid, log) == old(Sends(pid, log))
      ensures o.Accepted? ==> Sends(pid, log) == old(Sends(pid, log)) + 1
      ensures o.Accepted? ==> world.file.Synced() && !Unsent(world.file.seen)
      ensures o.Existing? || (o.Unknown? && o.phase.Prepared?) ==> Sends(pid, log) == old(Sends(pid, log))
      ensures o.Existing? ==> Adopted(world.file, o.run)
      ensures if o.Killed? then Killing(pid, env) else Decides(old(world.procs[pid].record), env, o)
      ensures Leaves(old(world.procs[pid].record), world.file, o)
    {
      var record := world.procs[pid].record;
      var found := Search(record, env.direct, env.answers);
      if found.Err? || (found.value.None? && !record.phase.Prepared?) {
        Finish(pid, Leave(pid));
        return Unknown(record.phase);
      }
      if found.value.Some? {
        o := AdoptFound(pid, found.value.value, env);
        return;
      }
      var alive := Act(pid, NotFound(pid), env, 5);
      if !alive { return Killed; }
      if !env.witnessed {
        Finish(pid, Leave(pid));
        return Unknown(record.phase);
      }
      o := Submit(pid, env);
    }

    method AdoptFound(pid: Pid, run: int, env: Environment) returns (o: Outcome)
      requires Valid() && pid in world.procs && world.procs[pid].Looking? && world.holder == Some(pid)
      requires FindsRun(world.procs[pid].record, env.direct, env.answers, run)
      modifies this
      ensures Valid() && Sends(pid, log) == old(Sends(pid, log))
      ensures if o.Killed? then Killing(pid, env) else o == Existing(run) && Adopted(world.file, run)
      ensures Leaves(old(world.procs[pid].record), world.file, o)
    {
      var alive := Act(pid, Found(pid, run), env, 4);
      if !alive { return Killed; }
      Finish(pid, SyncDirectory(pid));
      o := Existing(run);
    }

    /** The uncertain record reaches the disk before the only POST. */
    method Submit(pid: Pid, env: Environment) returns (o: Outcome)
      requires Valid() && pid in world.procs && world.procs[pid].Witnessing? && world.holder == Some(pid)
      modifies this
      ensures Valid()
      ensures old(Sends(pid, log)) <= Sends(pid, log) <= old(Sends(pid, log)) + 1
      ensures if o.Killed? then Killing(pid, env) else o == if env.accepted then Accepted else Unknown(Uncertain)
      ensures Leaves(old(world.procs[pid].record), world.file, o)
      ensures !o.Killed? ==> Sends(pid, log) == old(Sends(pid, log)) + 1
      ensures !o.Killed? ==> world.file.Synced() && !Unsent(world.file.seen)
    {
      var alive := MarkUncertain(pid, env);
      if !alive { return Killed; }
      o := Send(pid, env);
    }

    method Send(pid: Pid, env: Environment) returns (o: Outcome)
      requires Valid() && pid in world.procs && world.procs[pid].Ready? && world.holder == Some(pid)
      modifies this
      ensures Valid() && Sends(pid, log) == old(Sends(pid, log)) + 1
      ensures if o.Killed? then Killing(pid, env) else o == if env.accepted then Accepted else Unknown(Uncertain)
      ensures Leaves(old(world.procs[pid].record), world.file, o)
      ensures !o.Killed? ==> world.file.Synced() && !Unsent(world.file.seen)
    {
      var alive := Act(pid, Post(pid), env, 8);
      if !alive { return Killed; }
      o := Respond(pid, env);
    }

    /** What the answer to the POST makes of the record. */
    method Respond(pid: Pid, env: Environment) returns (o: Outcome)
      requires Valid() && pid in world.procs && world.procs[pid].Sent? && world.holder == Some(pid)
      modifies this
      ensures Valid() && Sends(pid, log) == old(Sends(pid, log))
      ensures if o.Killed? then Killing(pid, env) else o == if env.accepted then Accepted else Unknown(Uncertain)
      ensures Leaves(old(world.procs[pid].record), world.file, o)
      ensures !o.Killed? ==> world.file.Synced() && !Unsent(world.file.seen)
    {
      if !env.accepted {
        Finish(pid, Leave(pid));
        return Unknown(Uncertain);
      }
      var alive := Act(pid, Confirm(pid), env, 9);
      if !alive { return Killed; }
      Finish(pid, SyncDirectory(pid));
      o := Accepted;
    }

    /** From here on a crash or a lost response must never cause resubmission. */
    method MarkUncertain(pid: Pid, env: Environment) returns (alive: bool)
      requires Valid() && pid in world.procs && world.procs[pid].Witnessing? && world.holder == Some(pid)
      modifies this
      ensures Valid() && Sends(pid, log) == old(Sends(pid, log))
      ensures !alive ==> Killing(pid, env)
      ensures alive ==> pid in world.procs && world.holder == Some(pid)
      ensures alive ==> world.procs[pid] == Ready(old(world.procs[pid].record).(phase := Uncertain))
    {
      alive := Act(pid, Commit(pid), env, 6);
      if alive {
        alive := Act(pid, SyncDirectory(pid), env, 7);
      }
    }

    /**
     The record update of consumer verification: a stale copy, then a recheck under the lock. It stops before
     that exactly when the copy's run is not found, or was not successful.
     */
    method AdoptVerifiedRun(pid: Pid, env: Environment) returns (o: Outcome)
      requires Valid() && pid !in world.procs
      modifies this
      ensures Valid() && Sends(pid, log) == old(Sends(pid, log))
      ensures o.Existing? ==> Adopted(world.file, o.run)
      ensures o.Killed? ==> Killing(pid, env)
      ensures o.Existing? || o.Partial? ==> old(world.file.seen).Some?
      ensures o.Existing? ==>
                env.successful && FindsRun(old(world.file.seen).value, env.direct, env.answers, o.run)
      ensures o.Existing? ==> world.file.seen.value.binding == old(world.file.seen).value.binding
      ensures o.Refused? ==>
                || old(world.file.seen).None?
                || !Conclusive(old(world.file.seen).value, env.direct, env.answers)
                || Changed(old(world.file.seen).value, world.file)
      ensures o.Partial? ==>
                !env.successful || FindsNone(old(world.file.seen).value, env.direct, env.answers)
    {
      if world.holder.Some? {
        return Blocked;
      }
      if world.file.seen.None? {
        return Refused;
      }
      var alive := Act(pid, Snapshot(pid), env, 0);
      if !alive { return Killed; }
      var found := Search(world.procs[pid].record, env.direct, env.answers);
      if found.Err? || found.value.None? || !env.successful {
        Finish(pid, Leave(pid));
        return if found.Err? then Refused else Partial;
      }
      alive := Act(pid, Complete(pid, found.value.value), env, 1);
      if !alive { return Killed; }
      o := Claim(pid, env);
    }

    method Claim(pid: Pid, env: Environment) returns (o: Outcome)
      requires Valid() && pid in world.procs && world.procs[pid].Claiming?
      modifies this
      ensures Valid() && Sends(pid, log) == old(Sends(pid, log))
      ensures o.Existing? ==> Adopted(world.file, o.run) && o.run == old(world.procs[pid].run)
      ensures o.Existing? ==> world.file.seen.value.binding == old(world.procs[pid].record).binding
      ensures o.Refused? ==> Changed(old(world.procs[pid].record), world.file)
      ensures o.Blocked? ==> old(world.holder).Some?
      ensures o.Killed? ==> Killing(pid, env)
      ensures !o.Partial?
    {
      var run := world.procs[pid].run;
      if world.holder.Some? {
        Finish(pid, Leave(pid));
        return Blocked;
      }
      var alive := Act(pid, Relock(pid), env, 2);
      if !alive { return Killed; }
      if !Enabled(world, Adopt(pid)) {
        Finish(pid, Leave(pid));
        return Refused;
      }
      alive := Act(pid, Adopt(pid), env, 3);
      if !alive { return Killed; }
      Finish(pid, SyncDirectory(pid));
      o := Existing(run);
    }
  }
}
