/** The synchronous fallback after ten rounds (processAllSync and the synchronous branch of
    executeTask), and exactly when it is serially equivalent. */
module Synchronous {
  import opened Storage
  import opened Programs
  import opened Table
  import opened Sessions
  import opened Protocol
  import opened ValidatePhase
  import opened Rounds

  function BlamedIndices(t: Table, i: nat, readset: ReadSet): set<nat> {
    set k | k in readset && Scan(t, i, k).Some? && Blames(t, i, k, readset[k], Scan(t, i, k).value) ::
      Scan(t, i, k).value
  }

  ghost predicate AllValidated(tasks: seq<Task>, deps: set<nat>) {
    forall d :: d in deps ==> IsValidated(tasks, d)
  }

  /** shouldRerun of a checkable task with nobody else moving. When the check fails and everything to
      wait for is validated, the status stays as it was. */
  ghost function Revalidate(c: Config, i: nat): Config
    requires i < |c.tasks|
  {
    var task, slot := c.tasks[i], At(c.table, i);
    if slot.readset.Some? && !ReadsetStands(c.table, c.parent, i, slot.readset.value) then
      var deps := task.deps + BlamedIndices(c.table, i, slot.readset.value);
      var demoted := task.(deps := deps);
      Config(c.tasks[i := if AllValidated(c.tasks, deps) then demoted else demoted.(status := Waiting)],
             WithReadset(Invalidate(c.table, i, task.incarnation), i, None), c.parent)
    else c.(tasks := c.tasks[i := task.(status := Validated)])
  }

  /** The answer of shouldRerun with nobody else moving. */
  ghost predicate Reruns(c: Config, i: nat)
    requires i < |c.tasks|
  {
    var task, slot := c.tasks[i], At(c.table, i);
    match task.status
    case Aborted => true
    case Pending => true
    case Waiting => AllValidated(c.tasks, task.deps)
    case _ =>
      slot.readset.Some? && !ReadsetStands(c.table, c.parent, i, slot.readset.value) &&
      AllValidated(c.tasks, task.deps + BlamedIndices(c.table, i, slot.readset.value))
  }

  /** The end of a run that was not refused: its writeset and readset, or its estimates, are stored. */
  function PublishedConfig(c: Config, i: nat, s: Session, r: Response): Config
    requires i < |c.tasks|
  {
    var task := c.tasks[i];
    Config(c.tasks[i := FinishedTask(task, s, r)],
           if s.abort.None?
           then WithReadset(StoreWriteset(c.table, i, task.incarnation, s.writeset), i, Some(s.readset))
           else StoreEstimates(c.table, i, task.incarnation, s.writeset.Keys),
           c.parent)
  }

  /** executeTask, from preparing the tracer on, with nobody else moving. */
  function ExecuteAlone(block: seq<Program>, c: Config, i: nat): Config
    requires i < |block| == |c.tasks|
  {
    var task := c.tasks[i];
    var s := SessionRun(block[i], c.table, c.parent, i, NEW_SESSION);
    var result := RunFresh(block[i], c.parent).result;
    if result.None? then c.(tasks := c.tasks[i := task.(runs := task.runs + 1)])
    else PublishedConfig(c, i, s, result.value)
  }

  /** executeTask in synchronous mode: a validated task is validated once more and left alone if it is
      still marked validated then; any other task is reset if need be, and executed. */
  ghost function ExecuteSync(block: seq<Program>, c: Config, i: nat): Config
    requires i < |block| == |c.tasks|
  {
    var c1 := if c.tasks[i].status.Validated? then Revalidate(c, i) else c;
    if c1.tasks[i].status.Validated? then c1
    else
      ExecuteAlone(block, if c1.tasks[i].status.Pending? then c1
                          else c1.(tasks := c1.tasks[i := ResetTask(c1.tasks[i])]), i)
  }

  /** One step of processAllSync, which began at `start`: flush up to task `i`, then execute it. The
      first flush window starts over from 0. */
  ghost predicate SyncStep(block: seq<Program>, start: nat, c: Config, i: nat, d: Config) {
    start <= i < |block| == |c.tasks| &&
    exists p: State :: Flushed(c.table, if i == start then 0 else i - 1, i, c.parent, p) &&
                       d == ExecuteSync(block, c.(parent := p), i)
  }

  ghost predicate SyncPath(block: seq<Program>, start: nat, tr: seq<Config>) {
    |tr| > 0 && forall n :: 0 <= n < |tr| - 1 ==> SyncStep(block, start, tr[n], start + n, tr[n + 1])
  }

  /** processAllSync: the configurations before, between and after the tasks from `start` on. */
  ghost predicate SyncTrace(block: seq<Program>, start: nat, tr: seq<Config>) {
    start <= |block| && |tr| == |block| - start + 1 && SyncPath(block, start, tr)
  }

  lemma SyncPathGrows(block: seq<Program>, start: nat, tr: seq<Config>, d: Config)
    requires SyncPath(block, start, tr) && SyncStep(block, start, tr[|tr| - 1], start + |tr| - 1, d)
    ensures SyncPath(block, start, tr + [d])
  {
    hide SyncStep;
  }

  /** What a check with nobody else moving leaves: a task whose readset stands is validated and left alone.
      Otherwise it loses its readset, its listed versions become estimates of its incarnation, it depends
      on the nearest writers that are estimates or disagree, and waits unless it is to run again. */
  lemma RevalidateLeaves(c: Config, i: nat)
    requires i < |c.tasks| && Checkable(c.tasks[i])
    ensures var t0, s0, t, s := c.tasks[i], At(c.table, i), Revalidate(c, i).tasks[i], At(Revalidate(c, i).table, i);
            var failed := s0.readset.Some? && !ReadsetStands(c.table, c.parent, i, s0.readset.value);
            t.incarnation == t0.incarnation && t.response == t0.response &&
            if !failed then t.status == Validated && t.deps == t0.deps && s == s0 && !Reruns(c, i)
            else
              t.status == (if Reruns(c, i) then t0.status else Waiting) && s.readset.None? && s.keys == s0.keys &&
              (forall k :: k in ListedKeys(s0) ==>
                 k in s.row && s.row[k].estimate && s.row[k].incarnation == t0.incarnation) &&
              (forall j: nat :: j in t.deps <==>
                 j in t0.deps ||
                 exists k :: k in s0.readset.value && |s0.readset.value[k]| == 1 && Scan(c.table, i, k) == Some(j) &&
                             (At(c.table, j).row[k].estimate || At(c.table, j).row[k].value != s0.readset.value[k][0]))
  {
    var s0 := At(c.table, i);
    if s0.readset.Some? {
      var readset := s0.readset.value;
      forall j: nat
        ensures j in BlamedIndices(c.table, i, readset) <==>
                exists k :: k in readset && |readset[k]| == 1 && Scan(c.table, i, k) == Some(j) &&
                            (At(c.table, j).row[k].estimate || At(c.table, j).row[k].value != readset[k][0])
      {
      }
    }
  }

  /* When the pass is serial. */

  /** All that the transaction reads when it runs on the parent state is what the store has for it. */
  ghost predicate RunWouldStand(block: seq<Program>, c: Config, i: nat)
    requires i < |block|
  {
    ReadsetStands(c.table, c.parent, i, RunFresh(block[i], c.parent).readset)
  }

  /** The transaction, run on the parent state, is refused or aborts, so that it leaves no response. */
  ghost predicate RunWouldBeVoid(block: seq<Program>, c: Config, i: nat)
    requires i < |block|
  {
    var o := RunFresh(block[i], c.parent);
    o.result.None? || !Unblocked(c.table, i, o.readset)
  }

  /** The pass leaves a validated task as it is because its readset stands. */
  ghost predicate StoredStands(c: Config, i: nat)
    requires i < |c.tasks|
  {
    c.tasks[i].status.Validated? && ReadsetStands(c.table, c.parent, i, ReadsetOf(At(c.table, i)))
  }

  /** The pass skips a validated task although its readset does not stand: it does so when everything the
      task depends on is validated. */
  ghost predicate Skipped(c: Config, i: nat)
    requires i < |c.tasks|
  {
    c.tasks[i].status.Validated? && Reruns(c, i)
  }

  /** The condition of one step of the pass, on the configuration right before it: the readset stored of
      a validated task stands, or the task is not skipped and the readset it is about to record stands. */
  ghost predicate StepStands(block: seq<Program>, c: Config, i: nat)
    requires i < |block| == |c.tasks|
  {
    StoredStands(c, i) || (!Skipped(c, i) && RunWouldStand(block, c, i))
  }

  /** The step leaves the task without response, and the serial execution refuses the transaction. */
  ghost predicate VoidAsSerial(block: seq<Program>, init: State, c: Config, i: nat)
    requires i < |block| == |c.tasks|
  {
    SerialResult(block, init, i).None? && !StoredStands(c, i) && !Skipped(c, i) && RunWouldBeVoid(block, c, i)
  }

  /** The configuration between the flush and the execution of step `n` of a pass. */
  function BeforeStep(tr: seq<Config>, n: nat): Config
    requires n + 1 < |tr|
  {
    tr[n].(parent := tr[n + 1].parent)
  }

  /** The condition held at the first `n` steps of the pass. */
  ghost predicate StepsStand(block: seq<Program>, start: nat, tr: seq<Config>, n: nat)
    requires start + n <= |block| && n < |tr|
  {
    forall m: nat :: m < n ==> |tr[m].tasks| == |block| && StepStands(block, BeforeStep(tr, m), start + m)
  }

  /** The same, except for transactions that are void here and refused in the serial execution. */
  ghost predicate StepsEndSerially(block: seq<Program>, init: State, start: nat, tr: seq<Config>, n: nat)
    requires start + n <= |block| && n < |tr|
  {
    forall m: nat :: m < n ==> |tr[m].tasks| == |block| && StepEndsSerially(block, init, BeforeStep(tr, m), start + m)
  }

  ghost predicate StepEndsSerially(block: seq<Program>, init: State, c: Config, i: nat)
    requires i < |block| == |c.tasks|
  {
    StepStands(block, c, i) || VoidAsSerial(block, init, c, i)
  }

  lemma StandingStepsEndSerially(block: seq<Program>, init: State, start: nat, tr: seq<Config>, n: nat)
    requires start + n <= |block| && n < |tr|
    ensures StepsStand(block, start, tr, n) ==> StepsEndSerially(block, init, start, tr, n)
    ensures (forall i: nat :: start <= i < |block| ==> SerialResult(block, init, i).Some?) ==>
              (StepsStand(block, start, tr, n) <==> StepsEndSerially(block, init, start, tr, n))
  {
  }

  /** A slot that is ready for a new run of its task: nothing of an earlier run is left but estimates. */
  ghost predicate Blank(t: Task, s: Slot) {
    Supported(s) && s.readset.None? && OnlyEstimates(s.row) && t.response.None?
  }

  /** What a run leaves of a blank task: the run itself if it is not void, and a blank task otherwise. */
  lemma AloneLeaves(block: seq<Program>, c: Config, i: nat)
    requires i < |block| == |c.tasks| && Blank(c.tasks[i], At(c.table, i))
    ensures var d := ExecuteAlone(block, c, i);
            |d.tasks| == |block| &&
            if RunWouldBeVoid(block, c, i) then Blank(d.tasks[i], At(d.table, i))
            else RanOn(block[i], c.parent, d.tasks[i], At(d.table, i))
  {
    SessionRunRecords(block[i], c.table, c.parent, i, NEW_SESSION);
    SessionAbortIsExact(block[i], c.table, c.parent, i, NEW_SESSION);
    assert At(c.table, i).row - ListedKeys(At(c.table, i)) == map[];
  }

  /** A blank task, executed on top of tasks that ended serially, ends serially itself if and only if its run
      on the parent state stands, or is void and refused in the serial execution. */
  lemma AloneIsSerialIff(block: seq<Program>, init: State, c: Config, b: nat, i: nat)
    requires b <= i < |block| == |c.tasks| && EndedPrefix(block, init, c, i) && Contained(block, init, c.parent, b)
    requires Blank(c.tasks[i], At(c.table, i))
    ensures |ExecuteAlone(block, c, i).tasks| == |block|
    ensures EndsSerially(block, init, ExecuteAlone(block, c, i), i) <==>
            RunWouldStand(block, c, i) || (SerialResult(block, init, i).None? && RunWouldBeVoid(block, c, i))
  {
    var d, o, s := ExecuteAlone(block, c, i), RunFresh(block[i], c.parent), SerialState(block, init, i);
    AloneLeaves(block, c, i);
    RunRecords(block[i], c.parent, map[], map[]);
    RunRecords(block[i], s, map[], map[]);
    StandsIffParentIsCurrent(block, init, c, b, i, o.readset);
    SerialStep(block, init, i);
    if Agrees(s, o.readset) {
      Replay(block[i], c.parent, s, map[], map[]);
    }
  }

  ghost predicate DiffersAtMostAt(c: Config, d: Config, i: nat) {
    |d.tasks| == |c.tasks| && d.parent == c.parent &&
    (forall j: nat :: j != i ==> At(d.table, j) == At(c.table, j)) &&
    (forall j: nat :: j < |c.tasks| && j != i ==> d.tasks[j] == c.tasks[j])
  }

  lemma RevalidateTouchesOne(c: Config, i: nat)
    requires i < |c.tasks|
    ensures DiffersAtMostAt(c, Revalidate(c, i), i)
  {
  }

  lemma AloneTouchesOne(block: seq<Program>, c: Config, i: nat)
    requires i < |block| == |c.tasks|
    ensures DiffersAtMostAt(c, ExecuteAlone(block, c, i), i)
  {
  }

  /** A step of the pass changes its own task and slot only. */
  lemma SyncTouchesOne(block: seq<Program>, c: Config, i: nat)
    requires i < |block| == |c.tasks|
    ensures DiffersAtMostAt(c, ExecuteSync(block, c, i), i)
  {
    hide Revalidate, ExecuteAlone;
    RevalidateTouchesOne(c, i);
    var c1 := if c.tasks[i].status.Validated? then Revalidate(c, i) else c;
    AloneTouchesOne(block, c1, i);
    AloneTouchesOne(block, c1.(tasks := c1.tasks[i := ResetTask(c1.tasks[i])]), i);
  }

  /** The step that runs a task anew: what it starts from differs at that task only. */
  lemma RerunIsSerialIff(block: seq<Program>, init: State, c: Config, b: nat, i: nat, ready: Config)
    requires b <= i < |block| == |c.tasks| && EndedPrefix(block, init, c, i) && Contained(block, init, c.parent, b)
    requires DiffersAtMostAt(c, ready, i) && Blank(ready.tasks[i], At(ready.table, i))
    ensures |ExecuteAlone(block, ready, i).tasks| == |block|
    ensures EndsSerially(block, init, ExecuteAlone(block, ready, i), i) <==>
            RunWouldStand(block, c, i) || (SerialResult(block, init, i).None? && RunWouldBeVoid(block, c, i))
  {
    PrefixIsKept(block, init, c, ready, i);
    AloneIsSerialIff(block, init, ready, b, i);
    var readset := RunFresh(block[i], c.parent).readset;
    forall k | k in readset
      ensures KeyStands(ready.table, ready.parent, i, k, readset[k]) <==> KeyStands(c.table, c.parent, i, k, readset[k])
      ensures BlockedByEstimate(ready.table, i, k) <==> BlockedByEstimate(c.table, i, k)
    {
      ScanFrame(ready.table, c.table, i, k);
    }
  }

  /** The configuration in which the synchronous executeTask runs a task, if it does. */
  ghost function ReadyConfig(c: Config, i: nat): Config
    requires i < |c.tasks|
  {
    var c1 := if c.tasks[i].status.Validated? then Revalidate(c, i) else c;
    if c1.tasks[i].status.Pending? then c1 else c1.(tasks := c1.tasks[i := ResetTask(c1.tasks[i])])
  }

  /** A task that is neither left alone nor skipped is blank when it is run. */
  lemma ReadyIsBlank(block: seq<Program>, c: Config, i: nat)
    requires i < |block| == |c.tasks| && TaskOk(block[i], i, c.tasks[i], At(c.table, i))
    requires !c.tasks[i].status.Executed? && !StoredStands(c, i) && !Skipped(c, i)
    ensures var ready := ReadyConfig(c, i);
            DiffersAtMostAt(c, ready, i) && Blank(ready.tasks[i], At(ready.table, i)) &&
            ExecuteSync(block, c, i) == ExecuteAlone(block, ready, i)
  {
    RevalidateTouchesOne(c, i);
  }

  /** A skipped task keeps its response, and has lost its readset. */
  lemma SkippedIsNotSerial(block: seq<Program>, init: State, c: Config, i: nat)
    requires i < |block| == |c.tasks| && TaskOk(block[i], i, c.tasks[i], At(c.table, i)) && Skipped(c, i)
    ensures |ExecuteSync(block, c, i).tasks| == |block|
    ensures !EndsSerially(block, init, ExecuteSync(block, c, i), i)
  {
  }

  /** One step of the pass on top of tasks that ended serially: its task ends serially if and only if the
      condition of the step holds, or the step leaves a void that the serial execution leaves, too. */
  lemma SyncStepIsSerialIff(block: seq<Program>, init: State, c: Config, b: nat, i: nat)
    requires b <= i < |block| == |c.tasks| && EndedPrefix(block, init, c, i) && Contained(block, init, c.parent, b)
    requires TaskOk(block[i], i, c.tasks[i], At(c.table, i)) && !c.tasks[i].status.Executed?
    ensures |ExecuteSync(block, c, i).tasks| == |block|
    ensures EndsSerially(block, init, ExecuteSync(block, c, i), i) <==> StepEndsSerially(block, init, c, i)
  {
    if StoredStands(c, i) {
      StandingIsSerial(block, init, c, b, i);
      assert RanSerially(block, init, ExecuteSync(block, c, i), i);
    } else if Skipped(c, i) {
      SkippedIsNotSerial(block, init, c, i);
    } else {
      ReadyIsBlank(block, c, i);
      RerunIsSerialIff(block, init, c, b, i, ReadyConfig(c, i));
    }
  }

  /** One step of the pass, with its flush: the prefix of tasks that ended serially grows by its task if and
      only if the step ends serially. */
  lemma StepExtendsIff(block: seq<Program>, init: State, c: Config, lo: nat, i: nat, p: State, d: Config)
    requires i < |block| == |c.tasks| && Flushed(c.table, lo, i, c.parent, p)
    requires d == ExecuteSync(block, c.(parent := p), i)
    requires TaskOk(block[i], i, c.tasks[i], At(c.table, i)) && !c.tasks[i].status.Executed?
    requires EndedPrefix(block, init, c, i) ==> Contained(block, init, c.parent, i)
    ensures DiffersAtMostAt(c.(parent := p), d, i)
    ensures EndedPrefix(block, init, d, i + 1) <==>
            EndedPrefix(block, init, c, i) && StepEndsSerially(block, init, c.(parent := p), i)
    ensures EndedPrefix(block, init, d, i + 1) ==> Contained(block, init, d.parent, i + 1)
  {
    hide ExecuteSync, StepEndsSerially, Contained, EndsSerially;
    SyncTouchesOne(block, c.(parent := p), i);
    PrefixIsKept(block, init, c, d, i);
    PrefixIsKept(block, init, c, c.(parent := p), i);
    if EndedPrefix(block, init, c, i) {
      FlushIsContained(block, init, c, lo, i, i, p);
      SyncStepIsSerialIff(block, init, c.(parent := p), i, i);
      ContainedGrows(block, init, p, i, i + 1);
    }
    assert EndedPrefix(block, init, d, i + 1) ==> EndedPrefix(block, init, d, i) && EndsSerially(block, init, d, i);
    assert EndedPrefix(block, init, d, i) && EndsSerially(block, init, d, i) ==> EndedPrefix(block, init, d, i + 1);
  }

  /** The tasks that the pass has still to come to are as they were. */
  ghost predicate Untouched(c: Config, d: Config, i: nat) {
    |d.tasks| == |c.tasks| &&
    (forall j: nat :: i <= j ==> At(d.table, j) == At(c.table, j)) &&
    (forall j: nat :: i <= j < |c.tasks| ==> d.tasks[j] == c.tasks[j])
  }

  lemma PassHasBegun(block: seq<Program>, init: State, c: Config, start: nat, tr: seq<Config>)
    requires start <= |block| == |c.tasks| && EndedPrefix(block, init, c, start) &&
             Contained(block, init, c.parent, start)
    requires SyncTrace(block, start, tr) && tr[0] == c
    ensures Untouched(c, tr[0], start + 0)
    ensures EndedPrefix(block, init, tr[0], start + 0) <==> StepsEndSerially(block, init, start, tr, 0)
    ensures Contained(block, init, tr[0].parent, start + 0)
  {
  }

  lemma TraceLength(block: seq<Program>, start: nat, tr: seq<Config>)
    requires SyncTrace(block, start, tr)
    ensures start <= |block| && |tr| == |block| - start + 1
  {
  }

  lemma UntouchedAt(c: Config, d: Config, i: nat)
    requires Untouched(c, d, i)
    ensures |d.tasks| == |c.tasks| && At(d.table, i) == At(c.table, i)
    ensures i < |c.tasks| ==> d.tasks[i] == c.tasks[i]
  {
  }

  lemma UntouchedStrays(c: Config, d: Config, i: nat)
    requires Untouched(c, d, i) && NoStrays(c) && i <= |c.tasks|
    ensures |d.tasks| == |c.tasks| && NoStrays(d)
  {
  }

  lemma UntouchedCarries(c: Config, d: Config, e: Config, i: nat)
    requires Untouched(c, d, i) && Untouched(d, e, i + 1)
    ensures Untouched(c, e, i + 1)
  {
  }

  lemma PathStep(block: seq<Program>, start: nat, tr: seq<Config>, n: nat)
    requires SyncTrace(block, start, tr) && n + 1 < |tr|
    ensures SyncStep(block, start, tr[n], start + n, tr[n + 1])
  {
  }

  ghost predicate ReadyForPass(block: seq<Program>, c: Config) {
    AllTasksOk(block, c) && forall i: nat :: i < |c.tasks| ==> !c.tasks[i].status.Executed?
  }

  lemma ReadyAt(block: seq<Program>, c: Config, i: nat)
    requires ReadyForPass(block, c) && i < |block|
    ensures |c.tasks| == |block| && TaskOk(block[i], i, c.tasks[i], At(c.table, i)) && !c.tasks[i].status.Executed?
  {
  }

  /** What the loop leaves for the pass to start from. */
  lemma PassStart(block: seq<Program>, init: State, a: LoopState)
    requires LoopInv(block, init, a)
    ensures var start := FirstNonValidated(a.c.tasks);
            |a.c.tasks| == |block| && EndedPrefix(block, init, a.c, start) && Contained(block, init, a.c.parent, start)
    ensures NoStrays(a.c) && ReadyForPass(block, a.c)
  {
    RanIsEnded(block, init, a.c, FirstNonValidated(a.c.tasks));
    ContainedGrows(block, init, a.c.parent, a.flushedTo, FirstNonValidated(a.c.tasks));
  }

  /** After `n` steps all tasks up to there are serial if and only if the condition held at each step. */
  lemma {:induction false} StepsAreSerialIff(block: seq<Program>, init: State, c: Config, start: nat, tr: seq<Config>,
                                             n: nat)
    requires start <= |block| == |c.tasks| && EndedPrefix(block, init, c, start) &&
             Contained(block, init, c.parent, start)
    requires ReadyForPass(block, c)
    requires SyncTrace(block, start, tr) && tr[0] == c && n < |tr|
    ensures Untouched(c, tr[n], start + n)
    ensures EndedPrefix(block, init, tr[n], start + n) <==> StepsEndSerially(block, init, start, tr, n)
    ensures EndedPrefix(block, init, tr[n], start + n) ==> Contained(block, init, tr[n].parent, start + n)
  {
    hide *;
    if n == 0 {
      PassHasBegun(block, init, c, start, tr);
    } else {
      var m := n - 1;
      TraceLength(block, start, tr);
      StepsAreSerialIff(block, init, c, start, tr, m);
      UntouchedAt(c, tr[m], start + m);
      ReadyAt(block, c, start + m);
      PathStep(block, start, tr, m);
      OneMoreStep(block, init, start, tr, m);
      UntouchedCarries(c, tr[m], tr[n], start + m);
    }
  }

  lemma OneMoreStep(block: seq<Program>, init: State, start: nat, tr: seq<Config>, n: nat)
    requires n + 1 < |tr| && start + n < |block| && SyncStep(block, start, tr[n], start + n, tr[n + 1])
    requires TaskOk(block[start + n], start + n, tr[n].tasks[start + n], At(tr[n].table, start + n))
    requires !tr[n].tasks[start + n].status.Executed?
    requires EndedPrefix(block, init, tr[n], start + n) <==> StepsEndSerially(block, init, start, tr, n)
    requires EndedPrefix(block, init, tr[n], start + n) ==> Contained(block, init, tr[n].parent, start + n)
    ensures Untouched(tr[n], tr[n + 1], start + n + 1)
    ensures EndedPrefix(block, init, tr[n + 1], start + n + 1) <==> StepsEndSerially(block, init, start, tr, n + 1)
    ensures EndedPrefix(block, init, tr[n + 1], start + n + 1) ==>
            Contained(block, init, tr[n + 1].parent, start + n + 1)
  {
    hide ExecuteSync, StepEndsSerially, Contained, EndedPrefix, TaskOk, FlushedKey;
    var i := start + n;
    var lo := if i == start then 0 else i - 1;
    var p: State :| Flushed(tr[n].table, lo, i, tr[n].parent, p) &&
                    tr[n + 1] == ExecuteSync(block, tr[n].(parent := p), i);
    StepExtendsIff(block, init, tr[n], lo, i, p, tr[n + 1]);
    assert BeforeStep(tr, n) == tr[n].(parent := p);
    EndsNext(block, init, start, tr, n);
  }

  lemma EndsNext(block: seq<Program>, init: State, start: nat, tr: seq<Config>, n: nat)
    requires n + 1 < |tr| && start + n < |block| && |tr[n].tasks| == |block|
    ensures StepsEndSerially(block, init, start, tr, n + 1) <==>
            StepsEndSerially(block, init, start, tr, n) && StepEndsSerially(block, init, BeforeStep(tr, n), start + n)
  {
  }

  lemma PrefixIsKept(block: seq<Program>, init: State, c: Config, d: Config, s: nat)
    requires s <= |block| == |c.tasks| == |d.tasks|
    requires forall j: nat :: j < s ==> d.tasks[j] == c.tasks[j] && At(d.table, j) == At(c.table, j)
    ensures EndedPrefix(block, init, c, s) <==> EndedPrefix(block, init, d, s)
  {
    forall j: nat | j < s ensures EndsSerially(block, init, c, j) <==> EndsSerially(block, init, d, j) {
    }
  }

  /** The synchronous pass, after any run of the parallel loop: every task ends as in the serial execution,
      with the same run or refused, if and only if each step ends serially; and then the final flush yields
      the serial state. It suffices that the condition, which says nothing about the serial execution, holds
      at each step, and where the serial execution refuses nobody, this is necessary, too. */
  lemma PassIsSerialIff(block: seq<Program>, init: State, run: seq<Round>, tr: seq<Config>, final: State)
    requires ParallelRun(block, init, run)
    requires var a := RunEnd(block, init, run);
             SyncTrace(block, FirstNonValidated(a.c.tasks), tr) && tr[0] == a.c
    requires FlushedAll(tr[|tr| - 1].table, tr[|tr| - 1].parent, final)
    ensures var start, d, n := FirstNonValidated(RunEnd(block, init, run).c.tasks), tr[|tr| - 1], |tr| - 1;
            |d.tasks| == |block| &&
            (EndedPrefix(block, init, d, |block|) <==> StepsEndSerially(block, init, start, tr, n)) &&
            (StepsStand(block, start, tr, n) ==> EndedPrefix(block, init, d, |block|)) &&
            ((forall i: nat :: start <= i < |block| ==> SerialResult(block, init, i).Some?) ==>
               (StepsStand(block, start, tr, n) <==> EndedPrefix(block, init, d, |block|))) &&
            (EndedPrefix(block, init, d, |block|) ==>
               SameState(final, SerialState(block, init, |block|)) &&
               forall j: nat :: j < |block| ==> d.tasks[j].response == SerialResult(block, init, j))
  {
    hide *;
    var a := RunEnd(block, init, run);
    var start := FirstNonValidated(a.c.tasks);
    RunKeepsInv(block, init, run);
    PassStart(block, init, a);
    TraceLength(block, start, tr);
    StepsAreSerialIff(block, init, a.c, start, tr, |tr| - 1);
    UntouchedStrays(a.c, tr[|tr| - 1], |block|);
    StandingStepsEndSerially(block, init, start, tr, |tr| - 1);
    if EndedPrefix(block, init, tr[|tr| - 1], |block|) {
      FinalFlushIsSerial(block, init, tr[|tr| - 1], final);
    }
  }

  /* What the steps of the pass flush, and how often they run a task. */

  /** The first step of the pass flushes the keys whose highest version that is no estimate belongs to a task
      below the first one of the pass; a later step flushes those of the task right before its own. All
      other keys stay as they are. */
  lemma PassFlushesWindow(block: seq<Program>, start: nat, tr: seq<Config>, n: nat, k: StorageKey)
    requires SyncTrace(block, start, tr) && n + 1 < |tr|
    ensures forall h: nat :: Newest(tr[n].table, k, h) && (if n == 0 then h < start else h == start + n - 1) ==>
              Lookup(tr[n + 1].parent, k) == At(tr[n].table, h).row[k].value
    ensures (forall h: nat :: Newest(tr[n].table, k, h) ==> if n == 0 then h >= start else h != start + n - 1) ==>
              Lookup(tr[n + 1].parent, k) == Lookup(tr[n].parent, k)
  {
    hide SyncPath, ExecuteSync;
    PathStep(block, start, tr, n);
    var i := start + n;
    var lo := if i == start then 0 else i - 1;
    var p: State :| Flushed(tr[n].table, lo, i, tr[n].parent, p) &&
                    tr[n + 1] == ExecuteSync(block, tr[n].(parent := p), i);
    SyncTouchesOne(block, tr[n].(parent := p), i);
    assert FlushedKey(tr[n].table, lo, i, k, Lookup(tr[n].parent, k), Lookup(p, k));
  }

  /** A task that has been run as often as its incarnation says. */
  ghost predicate RunCounted(t: Task) {
    t.runs == t.incarnation + if t.status.Pending? then 0 else 1
  }

  /** A step of the pass runs its task at most once, as a new incarnation unless the task was pending. */
  lemma StepRunsOnce(block: seq<Program>, c: Config, i: nat)
    requires i < |block| == |c.tasks| && RunCounted(c.tasks[i])
    ensures var t, t' := c.tasks[i], ExecuteSync(block, c, i).tasks[i];
            |ExecuteSync(block, c, i).tasks| == |block| && t'.runs == t'.incarnation + 1 &&
            (t'.incarnation == t.incarnation || (t'.incarnation == t.incarnation + 1 && !t.status.Pending?))
  {
    hide SessionRun, Run, ReadsetStands, StoreWriteset, StoreEstimates, Invalidate;
  }

  /** After the pass every task has been run exactly Incarnation + 1 times, and at most once more than there
      were rounds. */
  lemma {:induction false} PassRunsOnce(block: seq<Program>, a: LoopState, tr: seq<Config>, n: nat)
    requires Counted(a.c, a.iterations) && a.iterations <= 10 && |a.c.tasks| == |block|
    requires SyncTrace(block, FirstNonValidated(a.c.tasks), tr) && tr[0] == a.c && n < |tr|
    ensures var start := FirstNonValidated(a.c.tasks);
            |tr[n].tasks| == |block| && start + n <= |block| &&
            (forall i: nat :: i < start + n ==>
               tr[n].tasks[i].runs == tr[n].tasks[i].incarnation + 1 && tr[n].tasks[i].incarnation <= 11) &&
            forall i: nat :: start + n <= i < |block| ==> tr[n].tasks[i] == a.c.tasks[i]
  {
    hide SyncPath, ExecuteSync, Flushed;
    var start := FirstNonValidated(a.c.tasks);
    if n > 0 {
      var i := start + n - 1;
      PassRunsOnce(block, a, tr, n - 1);
      PathStep(block, start, tr, n - 1);
      var p: State :|
        Flushed(tr[n - 1].table, if i == start then 0 else i - 1, i, tr[n - 1].parent, p) &&
        tr[n] == ExecuteSync(block, tr[n - 1].(parent := p), i);
      StepRunsOnce(block, tr[n - 1].(parent := p), i);
      SyncTouchesOne(block, tr[n - 1].(parent := p), i);
    }
  }
}
