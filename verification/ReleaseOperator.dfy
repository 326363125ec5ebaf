/** The journalled release dispatch of scripts/release_operator.py, for one request identifier. */
module ReleaseOperator {
  // `World` is everything an invocation can touch: the request record on disk, the flock, the program
  // point of every live invocation, and how many dispatch POSTs were ever sent. `Apply` performs one
  // effect. Every interleaving of invocations, kills and power losses is a run of these effects.

  import opened Prelude
  import opened Durable

  type Pid = nat

  const MAX_PAGES := 10
  const PAGE := 100

  const WORKFLOW := ".github/workflows/release-core.yml"
  const REPOSITORY := "gripsack-dev/gripsack"

  datatype Phase = Prepared | Uncertain | Submitted | Reconciled

  datatype Binding = Binding(commit: string, tag: string)

  datatype Record = Record(requestId: string, binding: Binding, phase: Phase, runId: Option<int>)

  datatype Run = Run(id: int, title: string, headSha: string, headBranch: string,
                     event: string, path: string, repository: string)

  // --- Reconciliation against the listed runs ---------------------------------------------

  predicate Claims(run: Run, record: Record) {
    run.title == "release-request-" + record.requestId
  }

  predicate ValidRun(run: Run, record: Record) {
    && run.id > 0 && Claims(run, record)
    && run.headSha == record.binding.commit && run.headBranch == record.binding.tag
    && run.event == "workflow_dispatch" && run.path == WORKFLOW && run.repository == REPOSITORY
    && (record.runId.Some? ==> record.runId.value == run.id)
  }

  datatype Failure = Failure

  type Answer = Result<seq<Run>, Failure>

  /** The first `n` answers are pages, all full but the last one, which ends the history. */
  ghost predicate WholeHistory(answers: seq<Answer>, n: nat) {
    && 1 <= n <= MAX_PAGES && n <= |answers|
    && (forall k :: 0 <= k < n ==> answers[k].Ok? && |answers[k].value| <= PAGE)
    && (forall k :: 0 <= k < n - 1 ==> |answers[k].value| == PAGE)
    && |answers[n-1].value| < PAGE
  }

  /** `run` claims the request in one of the first `n` pages. */
  ghost predicate Listed(answers: seq<Answer>, n: nat, record: Record, run: Run) {
    exists k :: 0 <= k < n && k < |answers| && answers[k].Ok? && run in answers[k].value && Claims(run, record)
  }

  /** All claims are valid and name one run. */
  ghost predicate Agree(answers: seq<Answer>, n: nat, record: Record) {
    && (forall r :: Listed(answers, n, record, r) ==> ValidRun(r, record))
    && (forall r, s :: Listed(answers, n, record, r) && Listed(answers, n, record, s) ==> r.id == s.id)
  }

  /** `found` is a valid listed run, or no run is listed. */
  ghost predicate Names(answers: seq<Answer>, n: nat, record: Record, found: Option<Run>) {
    match found
    case Some(run) => Listed(answers, n, record, run) && ValidRun(run, record)
    case None => forall r :: !Listed(answers, n, record, r)
  }

  /** `run` is what was found on earlier pages, or claims the request on this one. */
  ghost predicate Candidate(runs: seq<Run>, record: Record, before: Option<Run>, run: Run) {
    Some(run) == before || (run in runs && Claims(run, record))
  }

  ghost predicate PageAgrees(runs: seq<Run>, record: Record, before: Option<Run>) {
    && (forall r :: Candidate(runs, record, before, r) ==> ValidRun(r, record))
    && (forall r, s :: Candidate(runs, record, before, r) && Candidate(runs, record, before, s) ==> r.id == s.id)
  }

  /** One page of the paging loop: the run found so far, or a refusal. */
  method ScanPage(runs: seq<Run>, record: Record, before: Option<Run>) returns (found: Result<Option<Run>, Failure>)
    requires before.Some? ==> ValidRun(before.value, record)
    ensures found.Ok? <==> PageAgrees(runs, record, before)
    ensures found.Ok? && found.value.Some? ==> Candidate(runs, record, before, found.value.value)
    ensures found.Ok? && found.value.None? ==> forall r :: !Candidate(runs, record, before, r)
  {
    var current := before;
    for i := 0 to |runs|
      invariant current.Some? ==> Candidate(runs[..i], record, before, current.value)
      invariant current.None? ==> forall r :: !Candidate(runs[..i], record, before, r)
      invariant forall r :: Candidate(runs[..i], record, before, r) ==> ValidRun(r, record) && r.id == current.value.id
    {
      assert forall r :: r in runs[..i+1] <==> r in runs[..i] || r == runs[i];
      if Claims(runs[i], record) {
        assert Candidate(runs, record, before, runs[i]);
        if !ValidRun(runs[i], record) {
          return Err(Failure);
        }
        if current.Some? && current.value.id != runs[i].id {
          assert Candidate(runs, record, before, current.value);
          return Err(Failure);
        }
        current := Some(runs[i]);
      }
    }
    assert runs[..|runs|] == runs;
    found := Ok(current);
  }

  /**
   The listing is conclusive exactly when it is complete within the page bound and its claims
   agree; then it names a claiming run if one is listed, and no run only when none is.
   */
  method Reconcile(record: Record, direct: Result<Run, Failure>, answers: seq<Answer>)
    returns (found: Result<Option<Run>, Failure>)
    ensures record.runId.Some? ==>
      found == if direct.Ok? && ValidRun(direct.value, record) then Ok(Some(direct.value)) else Err(Failure)
    ensures record.runId.None? ==>
      (found.Ok? <==> exists n: nat :: WholeHistory(answers, n) && Agree(answers, n, record))
    ensures record.runId.None? && found.Ok? ==>
      exists n: nat :: WholeHistory(answers, n) && Names(answers, n, record, found.value)
  {
    if record.runId.Some? {
      if direct.Ok? && ValidRun(direct.value, record) {
        return Ok(Some(direct.value));
      }
      return Err(Failure);
    }
    var current: Option<Run> := None;
    var page := 0;
    while page < MAX_PAGES
      invariant 0 <= page <= MAX_PAGES && page <= |answers|
      invariant forall k :: 0 <= k < page ==> answers[k].Ok? && |answers[k].value| == PAGE
      invariant Agree(answers, page, record)
      invariant Names(answers, page, record, current)
    {
      if page == |answers| || answers[page].Err? || |answers[page].value| > PAGE {
        return Err(Failure);
      }
      var runs := answers[page].value;
      ghost var upto: nat := page + 1;
      forall r ensures Listed(answers, upto, record, r)
                       <==> Listed(answers, page, record, r) || (r in runs && Claims(r, record))
      {
        ListedNextPage(answers, page, record, r);
      }
      var next := ScanPage(runs, record, current);
      if next.Err? {
        RefusedPage(answers, page, record, current);
        return Err(Failure);
      }
      if next.value.None? {
        assert forall r :: Some(r) == current ==> Candidate(runs, record, current, r);
        assert current == None;
        assert forall r :: !Candidate(runs, record, current, r);
        assert forall r :: Listed(answers, upto, record, r) ==> Candidate(runs, record, current, r);
        assert Names(answers, upto, record, None);
      }
      current := next.value;
      page := page + 1;
      if |runs| < PAGE {
        assert WholeHistory(answers, page);
        return Ok(current);
      }
    }
    return Err(Failure);
  }

  lemma WholeHistoryOnce(answers: seq<Answer>, m: nat, n: nat)
    requires WholeHistory(answers, m) && WholeHistory(answers, n)
    ensures m == n
  {
  }

  // What one reconciliation says of a record, given the run that its id names and the listing.

  ghost predicate Conclusive(record: Record, direct: Result<Run, Failure>, answers: seq<Answer>) {
    if record.runId.Some? then direct.Ok? && ValidRun(direct.value, record)
    else exists n: nat :: WholeHistory(answers, n) && Agree(answers, n, record)
  }

  /** The run was found in this listing. */
  ghost predicate FoundIn(answers: seq<Answer>, record: Record, run: int) {
    exists n: nat, r :: WholeHistory(answers, n) && Names(answers, n, record, Some(r)) && r.id == run
  }

  ghost predicate FindsRun(record: Record, direct: Result<Run, Failure>, answers: seq<Answer>, run: int) {
    && Conclusive(record, direct, answers)
    && if record.runId.Some? then direct.value.id == run else FoundIn(answers, record, run)
  }

  ghost predicate FindsNone(record: Record, direct: Result<Run, Failure>, answers: seq<Answer>) {
    && Conclusive(record, direct, answers)
    && record.runId.None? && exists n: nat :: WholeHistory(answers, n) && Names(answers, n, record, None)
  }

  /** Reconciliation finds at most one run, and then does not find none. */
  lemma FindsOnce(record: Record, direct: Result<Run, Failure>, answers: seq<Answer>, run: int)
    requires FindsRun(record, direct, answers, run)
    ensures forall other :: FindsRun(record, direct, answers, other) ==> other == run
    ensures !FindsNone(record, direct, answers)
  {
    if record.runId.None? {
      var k: nat :| WholeHistory(answers, k) && Agree(answers, k, record);
      forall n: nat | WholeHistory(answers, n) ensures n == k { WholeHistoryOnce(answers, n, k); }
    }
  }

  /** `reconcile`, by the run's identifier. */
  method Search(record: Record, direct: Result<Run, Failure>, answers: seq<Answer>)
    returns (found: Result<Option<int>, Failure>)
    ensures found.Ok? <==> Conclusive(record, direct, answers)
    ensures found.Ok? && found.value.Some? ==> FindsRun(record, direct, answers, found.value.value)
    ensures found.Ok? && found.value.None? ==> FindsNone(record, direct, answers)
  {
    var run := Reconcile(record, direct, answers);
    found := if run.Err? then Err(Failure) else if run.value.None? then Ok(None) else Ok(Some(run.value.value.id));
  }

  lemma ListedNextPage(answers: seq<Answer>, page: nat, record: Record, r: Run)
    requires page < |answers| && answers[page].Ok?
    ensures Listed(answers, page + 1, record, r)
            <==> Listed(answers, page, record, r) || (r in answers[page].value && Claims(r, record))
  {
  }

  /** Once a page is refused, no longer history can make the claims agree. */
  lemma RefusedPage(answers: seq<Answer>, page: nat, record: Record, before: Option<Run>)
    requires page < |answers| && answers[page].Ok?
    requires forall k :: 0 <= k < page ==> answers[k].Ok? && |answers[k].value| == PAGE
    requires before.Some? ==> Listed(answers, page, record, before.value)
    requires !PageAgrees(answers[page].value, record, before)
    ensures forall n: nat :: WholeHistory(answers, n) ==> !Agree(answers, n, record)
  {
    forall n: nat | WholeHistory(answers, n) ensures !Agree(answers, n, record) {
      if page < n {
        assert forall r :: Candidate(answers[page].value, record, before, r) ==> Listed(answers, n, record, r);
      }
    }
  }

  // --- The effects of an invocation -------------------------------------------------------

  /** Where a live invocation stands. Only `Observing` and `Claiming` are outside the exclusive lock. */
  datatype Point =
    | Locked                    // LOCK_EX taken, record not read yet
    | Absent                    // load returned nothing
    | Announced(record: Record) // prepared record renamed, directory not synced
    | Looking(record: Record)   // listing runs
    | Witnessing(record: Record) // no visible run and still prepared: publishing the witness
    | Committed(record: Record) // uncertain record renamed, directory not synced
    | Ready(record: Record)     // uncertain record synced, POST not sent
    | Sent(record: Record)      // POST sent
    | Saving                    // a final record renamed, directory not synced
    | Observing(record: Record) // holds a copy read under LOCK_SH
    | Claiming(record: Record, run: int) // verifier about to take LOCK_EX with a run
    | Claimed(record: Record, run: int)  // verifier holding LOCK_EX

  predicate Exclusive(point: Point) {
    !point.Observing? && !point.Claiming?
  }

  datatype World = World(file: Disk<Option<Record>>, holder: Option<Pid>, procs: map<Pid, Point>, posts: nat)

  datatype Action =
    | Acquire(pid: Pid)
    | Load(pid: Pid)
    | Announce(pid: Pid, draft: Record)
    | SyncDirectory(pid: Pid)
    | Found(pid: Pid, run: int)
    | NotFound(pid: Pid)
    | Commit(pid: Pid)
    | Post(pid: Pid)
    | Confirm(pid: Pid)
    | Snapshot(pid: Pid)
    | Complete(pid: Pid, run: int)
    | Relock(pid: Pid)
    | Adopt(pid: Pid)
    | Leave(pid: Pid)           // return, exception or kill: the kernel drops the lock
    | PowerLoss(revealed: Option<Record>)

  predicate At(w: World, pid: Pid) {
    pid in w.procs
  }

  predicate Enabled(w: World, a: Action) {
    match a
    case Acquire(p) => !At(w, p) && w.holder.None?
    case Load(p) => At(w, p) && w.procs[p].Locked?
    case Announce(p, draft) => At(w, p) && w.procs[p].Absent? && draft.phase.Prepared? && draft.runId.None?
    case SyncDirectory(p) => At(w, p) && (w.procs[p].Announced? || w.procs[p].Committed? || w.procs[p].Saving?)
    case Found(p, run) => At(w, p) && w.procs[p].Looking?
                          && (w.procs[p].record.runId.Some? ==> w.procs[p].record.runId.value == run)
    case NotFound(p) => At(w, p) && w.procs[p].Looking? && w.procs[p].record.phase.Prepared?
    case Commit(p) => At(w, p) && w.procs[p].Witnessing?
    case Post(p) => At(w, p) && w.procs[p].Ready?
    case Confirm(p) => At(w, p) && w.procs[p].Sent?
    case Snapshot(p) => !At(w, p) && w.holder.None? && w.file.seen.Some?
    case Complete(p, run) => At(w, p) && w.procs[p].Observing?
                             && (w.procs[p].record.runId.Some? ==> w.procs[p].record.runId.value == run)
    case Relock(p) => At(w, p) && w.procs[p].Claiming? && w.holder.None?
    case Adopt(p) => At(w, p) && w.procs[p].Claimed? && w.file.seen.Some?
                     && w.file.seen.value.binding == w.procs[p].record.binding
    case Leave(p) => At(w, p)
    case PowerLoss(revealed) => revealed in w.file.maybe
  }

  function Move(w: World, p: Pid, point: Point): World {
    w.(procs := w.procs[p := point])
  }

  function Write(w: World, p: Pid, record: Record, point: Point): World {
    w.(file := w.file.Replace(Some(record)), procs := w.procs[p := point])
  }

  function Apply(w: World, a: Action): World
    requires Enabled(w, a)
  {
    match a
    case Acquire(p) => Move(w, p, Locked).(holder := Some(p))
    case Load(p) => Move(w, p, if w.file.seen.None? then Absent else Looking(w.file.seen.value))
    case Announce(p, draft) => Write(w, p, draft, Announced(draft))
    case SyncDirectory(p) =>
      var point := w.procs[p];
      var synced := w.(file := w.file.Sync());
      if point.Announced? then Move(synced, p, Looking(point.record))
      else if point.Committed? then Move(synced, p, Ready(point.record))
      else Vacate(synced, p)
    case Found(p, run) => Write(w, p, w.procs[p].record.(phase := Reconciled, runId := Some(run)), Saving)
    case NotFound(p) => Move(w, p, Witnessing(w.procs[p].record))
    case Commit(p) => var r := w.procs[p].record.(phase := Uncertain); Write(w, p, r, Committed(r))
    case Post(p) => Move(w, p, Sent(w.procs[p].record)).(posts := w.posts + 1)
    case Confirm(p) => Write(w, p, w.procs[p].record.(phase := Submitted), Saving)
    case Snapshot(p) => Move(w, p, Observing(w.file.seen.value))
    case Complete(p, run) => Move(w, p, Claiming(w.procs[p].record, run))
    case Relock(p) => Move(w, p, Claimed(w.procs[p].record, w.procs[p].run)).(holder := Some(p))
    case Adopt(p) => Write(w, p, w.file.seen.value.(phase := Reconciled, runId := Some(w.procs[p].run)), Saving)
    case Leave(p) => Vacate(w, p)
    case PowerLoss(revealed) => World(w.file.Reveal(revealed), None, map[], w.posts)
  }

  function Vacate(w: World, p: Pid): World {
    w.(holder := if w.holder == Some(p) then None else w.holder, procs := w.procs - {p})
  }

  const START := World(Stored(None), None, map[], 0)

  // --- Safety over every run --------------------------------------------------------------

  ghost predicate IsRun(worlds: seq<World>, actions: seq<Action>) {
    && |worlds| == |actions| + 1 && worlds[0] == START
    && forall i :: 0 <= i < |actions| ==> Enabled(worlds[i], actions[i]) && worlds[i+1] == Apply(worlds[i], actions[i])
  }

  /** The record says that nothing was sent. */
  predicate Unsent(stored: Option<Record>) {
    stored.None? || stored.value.phase.Prepared?
  }

  /** What the holder's program point promises about the disk. */
  ghost predicate PointFits(w: World, point: Point) {
    match point
    case Announced(r) => w.file.seen == Some(r) && w.posts == 0
    case Looking(r) => w.file.seen == Some(r)
    case Witnessing(r) => w.file.seen == Some(r) && w.posts == 0
    case Committed(r) => w.file.seen == Some(r) && r.phase.Uncertain? && w.posts == 0
    case Ready(r) => w.file == Stored(Some(r)) && r.phase.Uncertain? && w.posts == 0
    case Sent(r) => w.file == Stored(Some(r)) && r.phase.Uncertain?
    case Absent => w.file.seen == None
    case Saving => !Unsent(w.file.seen)
    case _ => true
  }

  ghost predicate Invariant(w: World) {
    && w.file.Consistent()
    && w.posts <= 1
    && (w.posts == 1 ==> forall v :: v in w.file.maybe ==> !Unsent(v))
    && (forall p :: p in w.procs && Exclusive(w.procs[p]) ==> w.holder == Some(p) && PointFits(w, w.procs[p]))
  }

  lemma InvariantStep(w: World, a: Action)
    requires Invariant(w) && Enabled(w, a)
    ensures Invariant(Apply(w, a))
  {
  }

  lemma {:induction false} RunKeepsInvariant(worlds: seq<World>, actions: seq<Action>)
    requires IsRun(worlds, actions)
    ensures forall w :: w in worlds ==> Invariant(w)
    decreases |actions|
  {
    if actions == [] {
      assert worlds == [START];
    } else {
      var n := |actions| - 1;
      RunKeepsInvariant(worlds[..n+1], actions[..n]);
      assert worlds[n] in worlds[..n+1];
      InvariantStep(worlds[n], actions[n]);
      assert worlds == worlds[..n+1] + [worlds[n+1]];
    }
  }

  /** At most one dispatch POST is ever sent, and none while any version on disk says so. */
  lemma AtMostOneDispatch(worlds: seq<World>, actions: seq<Action>)
    requires IsRun(worlds, actions)
    ensures forall i, j :: 0 <= i < j < |actions| ==> !(actions[i].Post? && actions[j].Post?)
    ensures forall i, v :: 0 <= i < |worlds| && v in worlds[i].file.maybe && Unsent(v) ==>
              forall j :: 0 <= j < i ==> !actions[j].Post?
  {
    RunKeepsInvariant(worlds, actions);
    forall i, j | 0 <= j < i < |worlds| && actions[j].Post? ensures worlds[i].posts == 1 {
      PostsGrow(worlds, actions, j, i);
    }
    assert forall i :: 0 <= i < |worlds| ==> Invariant(worlds[i]);
  }

  /** A sent POST is never forgotten. */
  lemma {:induction false} PostsGrow(worlds: seq<World>, actions: seq<Action>, j: nat, i: nat)
    requires IsRun(worlds, actions) && j < i < |worlds| && actions[j].Post?
    ensures worlds[i].posts == 1 && worlds[j].posts == 0
  {
    RunKeepsInvariant(worlds, actions);
    assert worlds[j] in worlds && worlds[j+1] in worlds && worlds[i] in worlds;
    if j + 1 < i {
      PostsGrow(worlds, actions, j, i - 1);
      assert worlds[i-1] in worlds;
    }
  }

  /**
   An invocation never takes the record back to prepared. Only a power loss can, by undoing a rename
   whose directory was not synced, and then nothing had been sent.
   */
  lemma BackToPrepared(worlds: seq<World>, actions: seq<Action>, i: nat)
    requires IsRun(worlds, actions) && i < |actions|
    requires !Unsent(worlds[i].file.seen) && Unsent(worlds[i+1].file.seen)
    ensures actions[i].PowerLoss? && !worlds[i].file.Synced()
    ensures forall j :: 0 <= j <= i ==> !actions[j].Post?
  {
    RunKeepsInvariant(worlds, actions);
    assert worlds[i] in worlds;
    AtMostOneDispatch(worlds, actions);
    assert worlds[i].file.seen in worlds[i].file.maybe;
    assert worlds[i+1].file.seen in worlds[i].file.maybe;
  }

  /**
   From a record that is not prepared, the effects that go back are exactly the power losses that reveal an
   older version.
   */
  lemma BackToPreparedIff(w: World, a: Action)
    requires Invariant(w) && Enabled(w, a) && !Unsent(w.file.seen)
    ensures Unsent(Apply(w, a).file.seen) <==> a.PowerLoss? && Unsent(a.revealed)
    ensures (exists v :: v in w.file.maybe && Unsent(v)) ==> w.posts == 0 && !w.file.Synced()
  {
  }

  /** Such a power loss is possible: killed after the rename to uncertain, before the sync. */
  lemma PowerLossCanUndoUncertain(record: Record) returns (worlds: seq<World>, actions: seq<Action>)
    requires record.phase.Prepared? && record.runId.None?
    ensures IsRun(worlds, actions)
    ensures exists i: nat :: i < |actions| && !Unsent(worlds[i].file.seen) && Unsent(worlds[i+1].file.seen)
  {
    worlds, actions := KilledAfterCommit(record);
    var i, w := |actions|, Final(worlds);
    ExtendRun(worlds, actions, PowerLoss(Some(record)));
    worlds, actions := worlds + [Apply(w, PowerLoss(Some(record)))], actions + [PowerLoss(Some(record))];
    assert worlds[i] == w && worlds[i+1].file.seen == Some(record);
  }

  /** The prepared record is durable, the uncertain one is not yet, and the invocation is gone. */
  lemma KilledAfterCommit(record: Record) returns (worlds: seq<World>, actions: seq<Action>)
    requires record.phase.Prepared? && record.runId.None?
    ensures IsRun(worlds, actions)
    ensures Final(worlds).file.seen == Some(record.(phase := Uncertain)) && Some(record) in Final(worlds).file.maybe
  {
    var steps := [Acquire(0), Load(0), Announce(0, record), SyncDirectory(0), NotFound(0), Commit(0), Leave(0)];
    worlds, actions := [START], [];
    for k := 0 to |steps|
      invariant IsRun(worlds, actions)
      invariant var w := Final(worlds);
        && w.file.seen == (if k <= 2 then None else Some(if k <= 5 then record else record.(phase := Uncertain)))
        && (k >= 3 ==> Some(record) in w.file.maybe)
        && (k == 0 ==> w == START) && (1 <= k <= 6 ==> w.holder == Some(0) && 0 in w.procs)
        && (k == 1 ==> w.procs[0] == Locked)
        && (k == 2 ==> w.procs[0] == Apply(Apply(START, Acquire(0)), Load(0)).procs[0])
        && (k == 3 ==> w.procs[0] == Announced(record)) && (k == 4 ==> w.procs[0] == Looking(record))
        && (k == 5 ==> w.procs[0] == Witnessing(record))
    {
      ExtendRun(worlds, actions, steps[k]);
      worlds, actions := worlds + [Apply(Final(worlds), steps[k])], actions + [steps[k]];
    }
  }

  // --- The recorded run -------------------------------------------------------------------

  /** Only a reconciled record has a run id. */
  predicate Plain(stored: Option<Record>) {
    stored.Some? && stored.value.runId.Some? ==> stored.value.phase.Reconciled?
  }

  ghost predicate PointPlain(point: Point) {
    match point
    case Announced(r) => r.runId.None?
    case Looking(r) => Plain(Some(r))
    case Witnessing(r) => r.runId.None?
    case Committed(r) => r.runId.None?
    case Ready(r) => r.runId.None?
    case Sent(r) => r.runId.None?
    case _ => true
  }

  /** No invocation that can still send or confirm has a run id, and no record before reconciliation has one. */
  ghost predicate RunInvariant(w: World) {
    && (forall v :: v in w.file.maybe ==> Plain(v))
    && (forall p :: p in w.procs ==> PointPlain(w.procs[p]))
  }

  lemma RunInvariantStep(w: World, a: Action)
    requires Invariant(w) && RunInvariant(w) && Enabled(w, a)
    ensures RunInvariant(Apply(w, a))
  {
    assert w.file.seen in w.file.maybe;
  }

  lemma {:induction false} RunKeepsRunInvariant(worlds: seq<World>, actions: seq<Action>, i: nat)
    requires IsRun(worlds, actions) && i < |worlds|
    ensures Invariant(worlds[i]) && RunInvariant(worlds[i])
    decreases i
  {
    RunKeepsInvariant(worlds, actions);
    assert worlds[i] in worlds;
    if i > 0 {
      RunKeepsRunInvariant(worlds, actions, i - 1);
      RunInvariantStep(worlds[i-1], actions[i-1]);
    }
  }

  ghost predicate Recorded(w: World, id: int) {
    w.file.seen.Some? && w.file.seen.value.runId == Some(id)
  }

  /** A verifier adopts another run than `id`, or a power loss reveals a version without `id`. */
  ghost predicate Displaces(w: World, a: Action, id: int)
    requires Enabled(w, a)
  {
    match a
    case Adopt(p) => w.procs[p].run != id
    case PowerLoss(revealed) => revealed.None? || revealed.value.runId != Some(id)
    case _ => false
  }

  /** A recorded run id is gone after an effect exactly when that is one of the two. */
  lemma RecordedStep(w: World, a: Action, id: int)
    requires Invariant(w) && RunInvariant(w) && Enabled(w, a) && Recorded(w, id)
    ensures Recorded(Apply(w, a), id) <==> !Displaces(w, a, id)
    ensures a.PowerLoss? && w.file.Synced() ==> !Displaces(w, a, id)
  {
    assert w.file.seen in w.file.maybe;
  }

  /** In the worlds from `i` to `j` the run id is recorded. */
  ghost predicate Stays(worlds: seq<World>, id: int, i: nat, j: nat)
    requires j < |worlds|
  {
    forall k :: i <= k <= j ==> Recorded(worlds[k], id)
  }

  /** No effect from world `i` to world `j` displaces the run id. */
  ghost predicate Undisplaced(worlds: seq<World>, actions: seq<Action>, id: int, i: nat, j: nat)
    requires IsRun(worlds, actions) && j < |worlds|
  {
    forall k :: i <= k < j ==> !Displaces(worlds[k], actions[k], id)
  }

  /** A recorded run id stays over a part of a run exactly when no effect of that part displaces it. */
  lemma {:induction false} StaysIff(worlds: seq<World>, actions: seq<Action>, id: int, i: nat, j: nat)
    requires IsRun(worlds, actions) && i <= j < |worlds| && Recorded(worlds[i], id)
    ensures Stays(worlds, id, i, j) <==> Undisplaced(worlds, actions, id, i, j)
    decreases j
  {
    if i < j {
      StaysIff(worlds, actions, id, i, j - 1);
      assert Stays(worlds, id, i, j) <==> Stays(worlds, id, i, j - 1) && Recorded(worlds[j], id);
      RunKeepsRunInvariant(worlds, actions, j - 1);
      if Stays(worlds, id, i, j - 1) {
        RecordedStep(worlds[j-1], actions[j-1], id);
      }
    }
  }

  // --- One run for the title --------------------------------------------------------------

  /** In this listing no other run than `id` carries the request's title. */
  ghost predicate OneTitle(answers: seq<Answer>, record: Record, id: int) {
    forall k, r :: 0 <= k < |answers| && answers[k].Ok? && r in answers[k].value && Claims(r, record) ==> r.id == id
  }

  /** The effect acts on a run that it had to look for. */
  predicate Searches(w: World, a: Action)
    requires Enabled(w, a)
  {
    (a.Found? || a.Complete?) && w.procs[a.pid].record.runId.None?
  }

  /**
   Every search of the run found its run in its listing, and no listing shows another run than `id` under the
   title.
   */
  ghost predicate OneRunListed(worlds: seq<World>, actions: seq<Action>, listings: seq<seq<Answer>>, id: int)
    requires IsRun(worlds, actions)
  {
    && |listings| == |actions|
    && forall k :: 0 <= k < |actions| && Searches(worlds[k], actions[k]) ==>
         && FoundIn(listings[k], worlds[k].procs[actions[k].pid].record, actions[k].run)
         && OneTitle(listings[k], worlds[k].procs[actions[k].pid].record, id)
  }

  predicate Records(stored: Option<Record>, id: int) {
    stored.Some? && stored.value.runId.Some? ==> stored.value.runId.value == id
  }

  ghost predicate PointRecords(point: Point, id: int) {
    match point
    case Claiming(_, run) => run == id
    case Claimed(_, run) => run == id
    case Looking(r) => Records(Some(r), id)
    case Observing(r) => Records(Some(r), id)
    case _ => true
  }

  /** Every run id that is written or in hand is `id`. */
  ghost predicate IdInvariant(w: World, id: int) {
    && (forall v :: v in w.file.maybe ==> Records(v, id))
    && (forall p :: p in w.procs ==> PointRecords(w.procs[p], id))
  }

  lemma IdInvariantStep(w: World, a: Action, id: int)
    requires Invariant(w) && RunInvariant(w) && IdInvariant(w, id) && Enabled(w, a)
    requires Searches(w, a) ==> a.run == id
    ensures IdInvariant(Apply(w, a), id)
  {
    assert w.file.seen in w.file.maybe;
  }

  lemma SearchFindsIt(answers: seq<Answer>, record: Record, run: int, id: int)
    requires FoundIn(answers, record, run) && OneTitle(answers, record, id)
    ensures run == id
  {
  }

  lemma {:induction false} RunKeepsId(worlds: seq<World>, actions: seq<Action>, listings: seq<seq<Answer>>, id: int,
                                      i: nat)
    requires IsRun(worlds, actions) && OneRunListed(worlds, actions, listings, id) && i < |worlds|
    ensures IdInvariant(worlds[i], id)
    decreases i
  {
    if i > 0 {
      var w, a := worlds[i-1], actions[i-1];
      RunKeepsId(worlds, actions, listings, id, i - 1);
      RunKeepsRunInvariant(worlds, actions, i - 1);
      if Searches(w, a) { SearchFindsIt(listings[i-1], w.procs[a.pid].record, a.run, id); }
      IdInvariantStep(w, a, id);
    }
  }

  /** If the listings show one run under the title, only an unsynced power loss takes a recorded run id away. */
  lemma RunIdWriteOnce(worlds: seq<World>, actions: seq<Action>, listings: seq<seq<Answer>>, id: int, i: nat)
    requires IsRun(worlds, actions) && OneRunListed(worlds, actions, listings, id) && i < |actions|
    requires worlds[i].file.seen.Some? && worlds[i].file.seen.value.runId.Some?
    ensures Recorded(worlds[i], id)
    ensures Recorded(worlds[i+1], id) || (actions[i].PowerLoss? && !worlds[i].file.Synced())
  {
    RunKeepsId(worlds, actions, listings, id, i);
    RunKeepsRunInvariant(worlds, actions, i);
    assert worlds[i].file.seen in worlds[i].file.maybe;
    RecordedStep(worlds[i], actions[i], id);
    if actions[i].Adopt? { assert PointRecords(worlds[i].procs[actions[i].pid], id); }
  }

  ghost function Final(worlds: seq<World>): World requires worlds != [] { worlds[|worlds|-1] }

  lemma ExtendRun(worlds: seq<World>, actions: seq<Action>, a: Action)
    requires IsRun(worlds, actions) && Enabled(Final(worlds), a)
    ensures IsRun(worlds + [Apply(Final(worlds), a)], actions + [a])
  {
  }

  /** A run to a world where invocation 1 holds a copy of the prepared record and nobody the lock. */
  lemma ObserverOfPrepared(record: Record) returns (worlds: seq<World>, actions: seq<Action>)
    requires record.phase.Prepared? && record.runId.None?
    ensures IsRun(worlds, actions) && !(exists a :: a in actions && a.PowerLoss?)
    ensures Final(worlds) == World(Disk(Some(record), {None, Some(record)}), None, map[1 := Observing(record)], 0)
  {
    var w1 := Apply(START, Acquire(0));
    var w2 := Apply(w1, Load(0));
    var w3 := Apply(w2, Announce(0, record));
    var w4 := Apply(w3, Leave(0));
    assert w4.procs == map[];
    var w5 := Apply(w4, Snapshot(1));
    worlds, actions := [START, w1, w2, w3, w4, w5], [Acquire(0), Load(0), Announce(0, record), Leave(0), Snapshot(1)];
  }

  /** With two runs under one title a verifier holding a stale copy replaces the recorded run. */
  lemma StaleVerifierReplacesRun(record: Record) returns (worlds: seq<World>, actions: seq<Action>)
    requires record.phase.Prepared? && record.runId.None?
    ensures IsRun(worlds, actions) && !(exists a :: a in actions && a.PowerLoss?)
    ensures exists i: nat, j: nat :: i < j < |worlds|
              && worlds[i].file.seen == Some(record.(phase := Reconciled, runId := Some(1)))
              && worlds[j].file.seen == Some(record.(phase := Reconciled, runId := Some(2)))
  {
    worlds, actions := ObserverOfPrepared(record);
    var steps := [Acquire(0), Load(0), Found(0, 1), Leave(0), Complete(1, 2), Relock(1), Adopt(1)];
    var before := |worlds|;
    for k := 0 to |steps|
      invariant IsRun(worlds, actions) && |worlds| == before + k && !(exists a :: a in actions && a.PowerLoss?)
      invariant var w := Final(worlds);
        && w.file.seen == Some(if k <= 2 then record
                                 else record.(phase := Reconciled, runId := Some(if k <= 6 then 1 else 2)))
        && 1 in w.procs && (k <= 4 ==> w.procs[1] == Observing(record))
        && (k == 5 ==> w.procs[1] == Claiming(record, 2)) && (k == 6 ==> w.procs[1] == Claimed(record, 2))
        && (w.holder.None? <==> k in {0, 4, 5})
        && (1 <= k <= 3 ==> w.holder == Some(0))
        && (0 in w.procs <==> 1 <= k <= 3)
        && (k == 1 ==> w.procs[0] == Locked) && (k == 2 ==> w.procs[0] == Looking(record))
      invariant k >= 3 ==> worlds[before+2].file.seen == Some(record.(phase := Reconciled, runId := Some(1)))
    {
      ExtendRun(worlds, actions, steps[k]);
      worlds, actions := worlds + [Apply(Final(worlds), steps[k])], actions + [steps[k]];
    }
    assert worlds[before+2].file.seen == Some(record.(phase := Reconciled, runId := Some(1)));
    assert Final(worlds).file.seen == Some(record.(phase := Reconciled, runId := Some(2)));
  }
}
