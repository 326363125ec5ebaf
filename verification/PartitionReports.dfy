/**
 Who wrote the report that a success marker records.

 `reset_unfinished` unlinks the previous report but syncs only the partition directory, not the
 reports directory that held it, so a power loss before the start can bring the old report back. What
 is then marked can be another container's report exactly when an admissible one is there at the start.
 */
module PartitionReports {
  import opened Prelude
  import opened Durable
  import opened PartitionLifecycle

  /** An admissible report that another container than `id` wrote. */
  predicate Foreign(report: Option<Report>, id: ContainerId) {
    report.Some? && report.value.admitted && report.value.writer != id
  }

  lemma StepAt(worlds: seq<World>, actions: seq<Action>, k: nat)
    requires IsRun(worlds, actions) && k < |actions|
    ensures Invariant(worlds[k]) && Enabled(worlds[k], actions[k]) && worlds[k+1] == Apply(worlds[k], actions[k])
  {
    InvariantAt(worlds, actions, k);
  }

  /** Boot identities are never reused, so a power loss between two worlds shows in their boots. */
  lemma {:induction false} BootsGrow(worlds: seq<World>, actions: seq<Action>, i: nat, j: nat)
    requires IsRun(worlds, actions) && i <= j < |worlds|
    ensures worlds[i].boots <= worlds[j].boots
    ensures (exists k :: i <= k < j && actions[k].PowerLoss?) ==> worlds[j].boot !in worlds[i].boots
    decreases j
  {
    if i < j {
      BootsGrow(worlds, actions, i, j - 1);
      BootStep(worlds[j-1], actions[j-1]);
    }
  }

  lemma BootStep(w: World, a: Action)
    requires Enabled(w, a)
    ensures w.boots <= Apply(w, a).boots
    ensures if a.PowerLoss? then Apply(w, a).boot !in w.boots else Apply(w, a).boot == w.boot
  {
  }

  /** A container that exists now has existed since it was created. */
  lemma {:induction false} ExistsThroughout(worlds: seq<World>, actions: seq<Action>, i: nat, j: nat, id: ContainerId)
    requires IsRun(worlds, actions) && i <= j < |worlds| && id in worlds[i].created && id in worlds[j].docker
    ensures forall k :: i <= k <= j ==> id in worlds[k].docker && id in worlds[k].created
    decreases j - i
  {
    if i < j {
      GoneStaysGone(worlds[i], actions[i], id);
      ExistsThroughout(worlds, actions, i + 1, j, id) by {
        assert id in worlds[i+1].created;
      }
      assert id in worlds[i+1].docker;
    }
  }

  lemma GoneStaysGone(w: World, a: Action, id: ContainerId)
    requires Enabled(w, a) && id in w.created
    ensures id in Apply(w, a).created && (id !in w.docker ==> id !in Apply(w, a).docker)
  {
  }

  lemma OwnReportStep(w: World, a: Action, id: ContainerId)
    requires Invariant(w) && Enabled(w, a) && !a.PowerLoss? && id in w.docker && !Foreign(w.report.seen, id)
    ensures !Foreign(Apply(w, a).report.seen, id)
  {
  }

  lemma {:induction false} OwnReportStays(worlds: seq<World>, actions: seq<Action>, i: nat, j: nat, id: ContainerId)
    requires IsRun(worlds, actions) && i <= j < |worlds| && !Foreign(worlds[i].report.seen, id)
    requires forall k :: i <= k < j ==> id in worlds[k].docker && !actions[k].PowerLoss?
    ensures !Foreign(worlds[j].report.seen, id)
    decreases j
  {
    if i < j {
      OwnReportStays(worlds, actions, i, j - 1, id);
      StepAt(worlds, actions, j - 1);
      OwnReportStep(worlds[j-1], actions[j-1], id);
    }
  }

  /** In this run container `id` is started at `i` and marked at `j` with a report that another one wrote. */
  ghost predicate MarksForeign(worlds: seq<World>, actions: seq<Action>, i: nat, j: nat, id: ContainerId) {
    && IsRun(worlds, actions) && i < j < |actions| && actions[i] == DockerStart(id) && actions[j].Publish?
    && actions[j].receipt.attempt.container == Some(id) && actions[j].receipt.report.writer != id
  }

  /** Another container's report is marked only if it was there, and admissible, at the start. */
  lemma MarkedReportIsOwn(worlds: seq<World>, actions: seq<Action>, i: nat, j: nat, id: ContainerId)
    requires MarksForeign(worlds, actions, i, j, id)
    ensures Foreign(worlds[i].report.seen, id)
  {
    if !Foreign(worlds[i].report.seen, id) {
      StepAt(worlds, actions, i);
      StepAt(worlds, actions, j);
      StartFacts(worlds[i], id);
      PublishFacts(worlds[j], actions[j].receipt, id);
      BudgetIsPermanent(worlds, actions, i + 1, j, id);
      BootsGrow(worlds, actions, i, j);
      InvariantAt(worlds, actions, i);
      assert worlds[i].boot in worlds[i].boots;
      ExistsThroughout(worlds, actions, i, j, id);
      OwnReportStays(worlds, actions, i, j, id);
    }
  }

  lemma StartFacts(w: World, id: ContainerId)
    requires Invariant(w) && Enabled(w, DockerStart(id))
    ensures id in w.created && id in Apply(w, DockerStart(id)).runs
    ensures Apply(w, DockerStart(id)).runs[id].budget.boot == w.boot
  {
  }

  lemma PublishFacts(w: World, r: Receipt, id: ContainerId)
    requires Invariant(w) && Enabled(w, Publish(r)) && r.attempt.container == Some(id)
    ensures id in w.docker && id in w.runs && w.runs[id].budget.boot == w.boot
    ensures w.report.seen == Some(r.report) && r.report.admitted
  {
  }

  // --- A stale report ---------------------------------------------------------------------

  ghost predicate Leads(worlds: seq<World>, actions: seq<Action>, w: World) {
    IsRun(worlds, actions) && worlds[|actions|] == w
  }

  lemma Extend(worlds: seq<World>, actions: seq<Action>, w: World, a: Action)
    requires Leads(worlds, actions, w) && Enabled(w, a)
    ensures Leads(worlds + [Apply(w, a)], actions + [a], Apply(w, a))
  {
  }

  ghost predicate Reachable(w: World) {
    exists worlds, actions :: Leads(worlds, actions, w)
  }

  /** A run goes on with `more`, and every effect of it is enabled. */
  ghost predicate Performs(w: World, more: seq<Action>, n: World)
    decreases |more|
  {
    if more == [] then n == w else Enabled(w, more[0]) && Performs(Apply(w, more[0]), more[1..], n)
  }

  lemma {:induction false} ExtendAll(worlds: seq<World>, actions: seq<Action>, w: World, more: seq<Action>, n: World)
    returns (longer: seq<World>)
    requires Leads(worlds, actions, w) && Performs(w, more, n)
    ensures Leads(longer, actions + more, n) && worlds <= longer
    decreases |more|
  {
    if more == [] {
      longer := worlds;
      assert actions + more == actions;
    } else {
      Extend(worlds, actions, w, more[0]);
      var next := Apply(w, more[0]);
      longer := ExtendAll(worlds + [next], actions + [more[0]], next, more[1..], n);
      assert actions + [more[0]] + more[1..] == actions + more;
    }
  }

  lemma {:induction false} PerformsInTurn(w: World, a: seq<Action>, m: World, b: seq<Action>, n: World)
    requires Performs(w, a, m) && Performs(m, b, n)
    ensures Performs(w, a + b, n)
    decreases |a|
  {
    if a == [] {
      assert a + b == b;
    } else {
      assert (a + b)[0] == a[0] && (a + b)[1..] == a[1..] + b;
      PerformsInTurn(Apply(w, a[0]), a[1..], m, b, n);
    }
  }

  lemma PerformsThen(w: World, a: Action, more: seq<Action>, n: World)
    requires Enabled(w, a) && Performs(Apply(w, a), more, n)
    ensures Performs(w, [a] + more, n)
  {
  }

  // --- The effects of `execute`, in its order -----------------------------------------------

  const CLEAN := Exit(0, false, "")
  const FAILED := Exit(1, false, "")

  /** Opening the checkpoint syncs the partition directory. */
  function Opening(mount: string): seq<Action> {
    [Relocate(mount), SyncDirectory]
  }

  /** `reset_unfinished` and `create`. */
  function Creating(a: Attempt, id: ContainerId): seq<Action> {
    [Reset, Journal(a), SyncDirectory, DockerCreate(id), Journal(a.(container := Some(id), phase := Created)),
     SyncDirectory]
  }

  /** `retain_logs`. */
  const LOGGING := [WriteLog("", false), WriteLog("", true), SyncDirectory]

  /** `complete`, up to the rename of the marker. */
  function Marking(receipt: Receipt): seq<Action> {
    [SettleReport, Publish(receipt)]
  }

  lemma LogIsKept(w: World)
    requires w.complete == Stored(None) && w.attempt.Synced()
    ensures Performs(w, LOGGING, w.(log := File(Some(""), true)))
  {
    var n := w.(log := File(Some(""), true));
    assert w.attempt.Sync() == w.attempt;
    PerformsThen(n, SyncDirectory, [], n);
    var open := w.(log := File(Some(""), false));
    PerformsThen(open, WriteLog("", true), [SyncDirectory], n);
    PerformsThen(w, WriteLog("", false), [WriteLog("", true), SyncDirectory], n);
    assert LOGGING == [WriteLog("", false)] + [WriteLog("", true), SyncDirectory];
  }

  lemma MarkerIsPublished(w: World, receipt: Receipt) returns (n: World)
    requires w.complete.seen.None? && w.attempt == Stored(Some(receipt.attempt))
    requires w.log == File(Some(receipt.log), true)
    requires w.report.seen == Some(receipt.report) && receipt.report.admitted
    requires WithinBudget(receipt.result, receipt.attempt)
    requires Observed(w, receipt.attempt.container.value, receipt.result)
    ensures Performs(w, Marking(receipt), n)
  {
    var settled := w.(report := w.report.Sync());
    n := settled.(complete := settled.complete.Replace(Some(receipt)));
    PerformsThen(settled, Publish(receipt), [], n);
    PerformsThen(w, SettleReport, [Publish(receipt)], n);
  }

  /** The container runs, exits cleanly and writes no report of its own. */
  lemma RunsSilently(w: World, id: ContainerId) returns (n: World)
    requires Enabled(w, DockerStart(id))
    ensures Performs(w, [DockerStart(id), Finish(id, CLEAN)], n)
    ensures n.attempt == w.attempt && n.complete == w.complete && n.report == w.report
    ensures Observed(n, id, Observation(CLEAN, w.boot, w.clock))
  {
    var started := Apply(w, DockerStart(id));
    n := Apply(started, Finish(id, CLEAN));
    PerformsThen(started, Finish(id, CLEAN), [], n);
    PerformsThen(w, DockerStart(id), [Finish(id, CLEAN)], n);
  }

  function StartAndMark(id: ContainerId, receipt: Receipt): seq<Action> {
    [DockerStart(id), Finish(id, CLEAN)] + LOGGING + Marking(receipt)
  }

  /** The receipt for a clean exit at once, with the report that is there. */
  function ReceiptNow(w: World): Receipt
    requires w.attempt.seen.Some? && w.report.seen.Some?
  {
    Receipt(Observation(CLEAN, w.boot, w.clock), w.attempt.seen.value, w.report.seen.value, "")
  }

  /** The container can be started within its budget. */
  predicate Startable(w: World, id: ContainerId) {
    && Enabled(w, DockerStart(id)) && w.attempt.seen.value.container == Some(id)
    && w.clock < w.attempt.seen.value.budget.value.deadline
  }

  /** Whatever admissible report is there at the start can be the one that is marked. */
  lemma EarlierReportCanBeMarked(w: World, id: ContainerId) returns (n: World)
    requires Invariant(w) && Startable(w, id) && w.report.seen.Some? && w.report.seen.value.admitted
    ensures Performs(w, StartAndMark(id, ReceiptNow(w)), n)
  {
    assert w.attempt.seen in w.attempt.maybe && w.complete.maybe == {None};
    var ran := RunsSilently(w, id);
    LogIsKept(ran);
    var logged := ran.(log := File(Some(""), true));
    n := MarkerIsPublished(logged, ReceiptNow(w));
    PerformsInTurn(w, [DockerStart(id), Finish(id, CLEAN)], ran, LOGGING, logged);
    PerformsInTurn(w, [DockerStart(id), Finish(id, CLEAN)] + LOGGING, logged, Marking(ReceiptNow(w)), n);
  }

  lemma StartAndMarkMarksForeign(worlds: seq<World>, actions: seq<Action>, w: World, id: ContainerId)
    returns (longer: seq<World>)
    requires Leads(worlds, actions, w) && Startable(w, id) && Foreign(w.report.seen, id)
    ensures MarksForeign(longer, actions + StartAndMark(id, ReceiptNow(w)), |actions|, |actions| + 6, id)
    ensures longer[|actions|] == w
  {
    InvariantAt(worlds, actions, |actions|);
    var n := EarlierReportCanBeMarked(w, id);
    longer := ExtendAll(worlds, actions, w, StartAndMark(id, ReceiptNow(w)), n);
  }

  ghost predicate CanMarkForeign(w: World, id: ContainerId) {
    exists worlds, actions, i, j :: MarksForeign(worlds, actions, i, j, id) && worlds[i] == w
  }

  /**
   A startable container can be marked with the report of another one exactly when such a report is there,
   admissible.
   */
  lemma CanMarkForeignIff(w: World, id: ContainerId)
    requires Reachable(w) && Startable(w, id)
    ensures CanMarkForeign(w, id) <==> Foreign(w.report.seen, id)
  {
    if CanMarkForeign(w, id) {
      var worlds, actions, i, j :| MarksForeign(worlds, actions, i, j, id) && worlds[i] == w;
      MarkedReportIsOwn(worlds, actions, i, j, id);
    }
    if Foreign(w.report.seen, id) {
      var worlds, actions :| Leads(worlds, actions, w);
      var longer := StartAndMarkMarksForeign(worlds, actions, w, id);
    }
  }

  // --- A stale report ---------------------------------------------------------------------

  const FIRST := Attempt(0, "/reports", None, None, Intent)
  const FIRST_BUDGET := Budget(0, 1, 1 + TIMEOUT)
  const FIRST_STARTED := Attempt(0, "/reports", Some(0), Some(FIRST_BUDGET), Started)
  const SECOND := Attempt(1, "/reports", None, None, Intent)
  const SECOND_CREATED := Attempt(1, "/reports", Some(1), None, Created)
  const SECOND_STARTED := Attempt(1, "/reports", Some(1), Some(Budget(1, 1, 1 + TIMEOUT)), Started)
  const OLD_REPORT := Report("", true, 0)

  /**
   The first call's container writes an admissible report and fails, so the call journals the failure and
   removes it.
   */
  const FIRST_CALL := Opening("/reports") + Creating(FIRST, 0) + [Journal(FIRST_STARTED), SyncDirectory]
                      + [DockerStart(0), WriteReport(0, OLD_REPORT), Finish(0, FAILED)] + LOGGING
                      + [Journal(FIRST_STARTED.(phase := Failed)), SyncDirectory, DockerRemove(0)]

  /** The second call unlinks that report, creates its container and is cut off by the power loss. */
  const SECOND_CALL := Opening("/reports") + Creating(SECOND, 1)

  /** The unlinked report is back. */
  const LOSS := PowerLoss(Some(SECOND_CREATED), None, Some(OLD_REPORT), None, 1, 1, FAILED)

  /** The third call finds the second one's container and starts it. */
  const THIRD_CALL := Opening("/reports") + [Journal(SECOND_STARTED), SyncDirectory]

  lemma Opens(w: World)
    requires w.attempt.Synced() && w.complete.Synced()
    ensures Performs(w, Opening(w.mount), w)
  {
    assert w.attempt.Sync() == w.attempt && w.complete.Sync() == w.complete;
    PerformsThen(w, SyncDirectory, [], w);
    PerformsThen(w, Relocate(w.mount), [SyncDirectory], w);
  }

  lemma JournalsAndSyncs(w: World, a: Attempt)
    requires w.complete == Stored(None) && Enabled(w, Journal(a))
    ensures Performs(w, [Journal(a), SyncDirectory], w.(attempt := Stored(Some(a)), owners := w.owners + {a.owner}))
  {
    var n := w.(attempt := Stored(Some(a)), owners := w.owners + {a.owner});
    var renamed := Apply(w, Journal(a));
    PerformsThen(renamed, SyncDirectory, [], n);
    PerformsThen(w, Journal(a), [SyncDirectory], n);
  }

  lemma Creates(w: World, a: Attempt, id: ContainerId) returns (n: World)
    requires w.complete == Stored(None) && w.docker == map[] && a.owner !in w.owners && id !in w.created
    requires a == Attempt(a.owner, w.mount, None, None, Intent)
    ensures Performs(w, Creating(a, id), n)
    ensures n == w.(attempt := Stored(Some(a.(container := Some(id), phase := Created))),
                               report := w.report.Replace(None),
                    log := File(None, false), docker := map[id := Container(a.owner, a.mount, Ready)],
                    created := w.created + {id}, owners := w.owners + {a.owner})
  {
    var b := a.(container := Some(id), phase := Created);
    var reset := Apply(w, Reset);
    JournalsAndSyncs(reset, a);
    var intended := reset.(attempt := Stored(Some(a)), owners := w.owners + {a.owner});
    var created := Apply(intended, DockerCreate(id));
    JournalsAndSyncs(created, b);
    n := created.(attempt := Stored(Some(b)), owners := created.owners + {b.owner});
    assert n.owners == w.owners + {a.owner};
    PerformsThen(intended, DockerCreate(id), [Journal(b), SyncDirectory], n);
    PerformsInTurn(reset, [Journal(a), SyncDirectory], intended, [DockerCreate(id)] + [Journal(b), SyncDirectory], n);
    PerformsThen(w, Reset, [Journal(a), SyncDirectory] + ([DockerCreate(id)] + [Journal(b), SyncDirectory]), n);
    assert Creating(a, id) == [Reset] + ([Journal(a), SyncDirectory]
                                           + ([DockerCreate(id)] + [Journal(b), SyncDirectory]));
  }

  lemma RunsAndFails(w: World, id: ContainerId, report: Report) returns (n: World)
    requires Enabled(w, DockerStart(id)) && w.docker == map[id := w.docker[id]] && w.docker[id].mount == w.mount
    requires report.writer == id
    ensures Performs(w, [DockerStart(id), WriteReport(id, report), Finish(id, FAILED)], n)
    ensures n == w.(docker := map[id := w.docker[id].(status := Exited(FAILED))],
                              report := w.report.Replace(Some(report)),
                    runs := w.runs[id := Execution(w.attempt.seen.value.budget.value,
                                                   Some(Observation(FAILED, w.boot, w.clock)))])
  {
    var started := Apply(w, DockerStart(id));
    var written := Apply(started, WriteReport(id, report));
    n := Apply(written, Finish(id, FAILED));
    assert n.docker == map[id := w.docker[id].(status := Exited(FAILED))];
    assert n.runs == w.runs[id := Execution(w.attempt.seen.value.budget.value,
                                            Some(Observation(FAILED, w.boot, w.clock)))];
    PerformsThen(written, Finish(id, FAILED), [], n);
    PerformsThen(started, WriteReport(id, report), [Finish(id, FAILED)], n);
    PerformsThen(w, DockerStart(id), [WriteReport(id, report), Finish(id, FAILED)], n);
  }

  lemma FailsAndRemoves(w: World, a: Attempt, id: ContainerId) returns (n: World)
    requires w.complete == Stored(None) && Enabled(w, Journal(a)) && a.phase.Failed? && a.owner in w.owners
    requires id in w.docker && w.docker == map[id := w.docker[id]]
    ensures Performs(w, [Journal(a), SyncDirectory, DockerRemove(id)], n)
    ensures n == w.(attempt := Stored(Some(a)), docker := map[])
  {
    JournalsAndSyncs(w, a);
    var failed := w.(attempt := Stored(Some(a)), owners := w.owners + {a.owner});
    assert failed.owners == w.owners;
    n := Apply(failed, DockerRemove(id));
    assert n.docker == map[];
    PerformsThen(failed, DockerRemove(id), [], n);
    PerformsInTurn(w, [Journal(a), SyncDirectory], failed, [DockerRemove(id)], n);
    assert [Journal(a), SyncDirectory, DockerRemove(id)] == [Journal(a), SyncDirectory] + [DockerRemove(id)];
  }

  const OLD_RUN := Execution(FIRST_BUDGET, Some(Observation(FAILED, 0, 1)))

  ghost function FirstWorld(attempt: Attempt, report: Disk<Option<Report>>, log: File<string>,
                            docker: map<ContainerId, Container>,
                        runs: map<ContainerId, Execution>): World {
    World(Stored(Some(attempt)), Stored(None), report, log, docker, runs, {0}, {0}, "/reports", 0, {0}, 1)
  }

  lemma FirstCallStarts() returns (w: World)
    ensures Performs(Empty("/reports", 0, 1), Opening("/reports") + Creating(FIRST, 0)
                       + [Journal(FIRST_STARTED), SyncDirectory], w)
    ensures w == FirstWorld(FIRST_STARTED, Stored(None), File(None, false), map[0 := Container(0, "/reports", Ready)],
                            map[])
  {
    var start := Empty("/reports", 0, 1);
    Opens(start);
    var created := Creates(start, FIRST, 0);
    assert created.report.maybe == {None};
    JournalsAndSyncs(created, FIRST_STARTED);
    w := created.(attempt := Stored(Some(FIRST_STARTED)), owners := created.owners + {0});
    PerformsInTurn(start, Opening("/reports"), start, Creating(FIRST, 0), created);
    PerformsInTurn(start, Opening("/reports") + Creating(FIRST, 0), created, [Journal(FIRST_STARTED), SyncDirectory],
                   w);
  }

  lemma FirstCallFails() returns (w: World)
    ensures Performs(Empty("/reports", 0, 1), FIRST_CALL, w)
    ensures w == FirstWorld(FIRST_STARTED.(phase := Failed), Disk(Some(OLD_REPORT), {None, Some(OLD_REPORT)}),
                            File(Some(""), true),
                        map[], map[0 := OLD_RUN])
  {
    var start := Empty("/reports", 0, 1);
    var begun := FirstCallStarts();
    var ran := RunsAndFails(begun, 0, OLD_REPORT);
    LogIsKept(ran);
    var logged := ran.(log := File(Some(""), true));
    w := FailsAndRemoves(logged, FIRST_STARTED.(phase := Failed), 0);
    var head := Opening("/reports") + Creating(FIRST, 0) + [Journal(FIRST_STARTED), SyncDirectory];
    var run := [DockerStart(0), WriteReport(0, OLD_REPORT), Finish(0, FAILED)];
    PerformsInTurn(start, head, begun, run, ran);
    PerformsInTurn(start, head + run, ran, LOGGING, logged);
    PerformsInTurn(start, head + run + LOGGING, logged,
                   [Journal(FIRST_STARTED.(phase := Failed)), SyncDirectory, DockerRemove(0)], w);
    assert w.runs == map[0 := OLD_RUN];
  }

  lemma ReportReturns(w: World) returns (n: World)
    requires w == FirstWorld(FIRST_STARTED.(phase := Failed), Disk(Some(OLD_REPORT), {None, Some(OLD_REPORT)}),
                             File(Some(""), true),
                         map[], map[0 := OLD_RUN])
    ensures Performs(w, SECOND_CALL + [LOSS], n)
    ensures n == World(Stored(Some(SECOND_CREATED)), Stored(None), Stored(Some(OLD_REPORT)), File(None, false),
                       map[1 := Container(1, "/reports", Ready)], map[0 := OLD_RUN], {0, 1}, {0, 1}, "/reports", 1,
                       {0, 1}, 1)
  {
    Opens(w);
    var created := Creates(w, SECOND, 1);
    assert created.report == Disk(None, {None, Some(OLD_REPORT)});
    assert Some(OLD_REPORT) in created.report.maybe && !created.report.Synced();
    n := Apply(created, LOSS);
    assert n.docker == created.docker && n.runs == created.runs;
    PerformsThen(created, LOSS, [], n);
    PerformsInTurn(w, Opening("/reports"), w, Creating(SECOND, 1), created);
    PerformsInTurn(w, SECOND_CALL, created, [LOSS], n);
  }

  lemma ThirdCallStarts(w: World) returns (n: World)
    requires w == World(Stored(Some(SECOND_CREATED)), Stored(None), Stored(Some(OLD_REPORT)), File(None, false),
                        map[1 := Container(1, "/reports", Ready)], map[0 := OLD_RUN], {0, 1}, {0, 1}, "/reports", 1,
                        {0, 1}, 1)
    ensures Performs(w, THIRD_CALL, n) && Startable(n, 1) && n.report.seen == Some(OLD_REPORT)
  {
    Opens(w);
    JournalsAndSyncs(w, SECOND_STARTED);
    n := w.(attempt := Stored(Some(SECOND_STARTED)), owners := w.owners + {1});
    PerformsInTurn(w, Opening("/reports"), w, [Journal(SECOND_STARTED), SyncDirectory], n);
  }

  /**
   Three calls and a power loss, effect by effect in the order of `execute`: the marker of the second
   container records the report of the first.
   */
  lemma StaleReportCanBeMarked() returns (worlds: seq<World>, receipt: Receipt)
    ensures var before := FIRST_CALL + (SECOND_CALL + [LOSS]) + THIRD_CALL;
            MarksForeign(worlds, before + StartAndMark(1, receipt), |before|, |before| + 6, 1)
    ensures receipt.report == OLD_REPORT
  {
    var start := Empty("/reports", 0, 1);
    var failed := FirstCallFails();
    var back := ReportReturns(failed);
    var ready := ThirdCallStarts(back);
    PerformsInTurn(start, FIRST_CALL, failed, SECOND_CALL + [LOSS], back);
    PerformsInTurn(start, FIRST_CALL + (SECOND_CALL + [LOSS]), back, THIRD_CALL, ready);
    var before := FIRST_CALL + (SECOND_CALL + [LOSS]) + THIRD_CALL;
    assert Leads([start], [], start);
    worlds := ExtendAll([start], [], start, before, ready);
    assert [] + before == before;
    receipt := ReceiptNow(ready);
    worlds := StartAndMarkMarksForeign(worlds, before, ready, 1);
  }
}
