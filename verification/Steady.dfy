/** Blocks on which ProcessAll is serial whatever their length. If every transaction is updating, is never
    refused, and writes the same keys whatever it reads, then nothing is hidden from the synchronous pass
    either, and no task whose readset has gone stale is skipped. */
module Steady {
  import opened Storage
  import opened Programs
  import opened Table
  import opened Protocol
  import opened ExecutePhase
  import opened ValidatePhase
  import opened Rounds
  import opened Liveness
  import opened Synchronous
  import opened Fees

  ghost function WriteKeys(p: Program): set<StorageKey> {
    RunFresh(p, map[]).writeset.Keys
  }

  ghost predicate SteadyOn(p: Program, s: State) {
    RunFresh(p, s).result.Some? && RunFresh(p, s).writeset.Keys == WriteKeys(p) && UpdatesOn(p, s)
  }

  /** Never refused, the same keys written on every state, each of them read and changed. */
  ghost predicate SteadyBlock(block: seq<Program>) {
    forall j: nat, s: State :: j < |block| ==> SteadyOn(block[j], s)
  }

  lemma SteadyIsUpdating(block: seq<Program>, init: State)
    requires SteadyBlock(block)
    ensures UpdatingBlock(block, init)
  {
    forall j: nat | j < |block| ensures Updating(block[j]) && SerialOutcome(block, init, j).result.Some? {
      forall s: State ensures UpdatesOn(block[j], s) {
        assert SteadyOn(block[j], s);
      }
      assert SteadyOn(block[j], SerialState(block, init, j));
    }
  }

  /** Every task has a version, final or estimate, of exactly the keys it writes. */
  ghost predicate Keyed(block: seq<Program>, c: Config) {
    |c.tasks| == |block| && forall i: nat :: i < |block| ==> At(c.table, i).row.Keys == WriteKeys(block[i])
  }

  /** A validated task at or above `hi` writes no key that a task from `lo` up to it writes. */
  ghost predicate Apart(block: seq<Program>, c: Config, lo: nat, hi: nat)
    requires |c.tasks| == |block|
  {
    forall m: nat, h: nat :: lo <= m < h < |block| && hi <= h && c.tasks[h].status.Validated? ==>
      WriteKeys(block[m]) !! WriteKeys(block[h])
  }

  /** What a validated task has read agrees with the nearest lower writer, if that one is validated, and
      with the parent state if there is none. */
  ghost predicate ReadSettled(c: Config, h: nat, k: StorageKey, values: seq<Hash>)
    requires h <= |c.tasks|
  {
    match Scan(c.table, h, k)
    case None => values == [Lookup(c.parent, k)]
    case Some(m) => c.tasks[m].status.Validated? ==> values == [At(c.table, m).row[k].value]
  }

  ghost predicate Settled(c: Config, hi: nat) {
    forall h: nat, k :: hi <= h < |c.tasks| && c.tasks[h].status.Validated? && k in ReadsetOf(At(c.table, h)) ==>
      ReadSettled(c, h, k, ReadsetOf(At(c.table, h))[k])
  }

  ghost predicate SteadyInv(block: seq<Program>, init: State, a: LoopState) {
    LiveInv(block, init, a) &&
    if a.iterations == 0 then forall i: nat :: i < |block| ==> a.c.tasks[i].status.Pending?
    else
      Keyed(block, a.c) && Apart(block, a.c, a.flushedTo, FirstNonValidated(a.c.tasks)) &&
      Settled(a.c, FirstNonValidated(a.c.tasks))
  }

  /* The rounds of the loop. */

  lemma ResultIsKeyed(p: Program, i: nat, parent: State, t0: Task, s0: Slot, t: Task, s: Slot)
    requires SteadyOn(p, parent) && ExecResult(RunFresh(p, parent), i, t0, s0, t, s)
    ensures s.row.Keys == WriteKeys(p)
  {
  }

  lemma ExecuteKeyed(block: seq<Program>, init: State, a: LoopState, f: LoopState, e: Config)
    requires SteadyBlock(block) && SteadyInv(block, init, a) && FlushStep(a, f)
    requires ExecPhase(block, f.c, ScheduledSet(a.scheduled), e)
    ensures Keyed(block, e)
  {
    hide ExecResult, UpdatesOn, LiveInv, FlushStep, SteadyOn;
    FlushKeepsTable(block, init, a, f);
    ScheduledIsPending(a);
    forall i: nat | i < |block| ensures At(e.table, i).row.Keys == WriteKeys(block[i]) {
      if i in ScheduledSet(a.scheduled) {
        assert SteadyOn(block[i], f.c.parent);
        ResultIsKeyed(block[i], i, f.c.parent, f.c.tasks[i], At(f.c.table, i), e.tasks[i], At(e.table, i));
      }
    }
  }

  lemma FlushKeepsTable(block: seq<Program>, init: State, a: LoopState, f: LoopState)
    requires LiveInv(block, init, a) && FlushStep(a, f)
    ensures Classified(a.c, a.scheduled) && |a.c.tasks| == |block|
    ensures f.c.table == a.c.table && f.c.tasks == a.c.tasks
  {
  }

  lemma ValidateKeyed(block: seq<Program>, e: Config, start: nat, c: Config, emitted: seq<nat>)
    requires Keyed(block, e) && ValPhase(e, start, c, emitted)
    ensures Keyed(block, c)
  {
    hide ReadsetStands;
    forall i: nat | i < |block| ensures At(c.table, i).row.Keys == WriteKeys(block[i]) {
      if i >= start {
        assert ValResult(e.tasks[i], At(e.table, i), c.tasks[i], At(c.table, i));
      }
    }
  }

  lemma ValidatedIsSettled(block: seq<Program>, e: Config, start: nat, c: Config, emitted: seq<nat>, h: nat,
                           k: StorageKey)
    requires Keyed(block, e) && Keyed(block, c) && ValPhase(e, start, c, emitted)
    requires start <= h < |block| && c.tasks[h].status.Validated? && k in ReadsetOf(At(c.table, h))
    ensures ReadSettled(c, h, k, ReadsetOf(At(c.table, h))[k])
  {
    assert ValResult(e.tasks[h], At(e.table, h), c.tasks[h], At(c.table, h));
    var values := ReadsetOf(At(e.table, h))[k];
    assert KeyStands(e.table, e.parent, h, k, values);
    forall m: nat | m < h ensures k in At(c.table, m).row <==> k in At(e.table, m).row {
      assert At(c.table, m).row.Keys == At(e.table, m).row.Keys;
    }
    ScanFrame(c.table, e.table, h, k);
    var n := Scan(c.table, h, k);
    if n.Some? && n.value >= start {
      assert ValResult(e.tasks[n.value], At(e.table, n.value), c.tasks[n.value], At(c.table, n.value));
    }
  }

  lemma ValidateSteady(block: seq<Program>, e: Config, start: nat, c: Config, emitted: seq<nat>)
    requires AllTasksOk(block, e) && start == FirstNonValidated(e.tasks) && AllUpdate(e, e.parent, start)
    requires Keyed(block, e) && ValPhase(e, start, c, emitted)
    ensures |c.tasks| == |block| && Keyed(block, c)
    ensures start <= FirstNonValidated(c.tasks)
    ensures Apart(block, c, start, FirstNonValidated(c.tasks)) && Settled(c, FirstNonValidated(c.tasks))
  {
    hide ValResult, Updates, TaskOk, ReadsetStands, WriteKeys;
    ValidateKeyed(block, e, start, c, emitted);
    assert start <= FirstNonValidated(c.tasks);
    forall m: nat, h: nat | start <= m < h < |block| && c.tasks[h].status.Validated?
      ensures WriteKeys(block[m]) !! WriteKeys(block[h])
    {
      assert At(e.table, m).row.Keys == WriteKeys(block[m]) && At(e.table, h).row.Keys == WriteKeys(block[h]);
      forall k ensures k !in At(e.table, m).row.Keys || k !in At(e.table, h).row.Keys {
        ValidatedIsApart(block, e, start, c, emitted, m, h, k);
      }
    }
    forall h: nat, k | start <= h < |c.tasks| && c.tasks[h].status.Validated? && k in ReadsetOf(At(c.table, h))
      ensures ReadSettled(c, h, k, ReadsetOf(At(c.table, h))[k])
    {
      ValidatedIsSettled(block, e, start, c, emitted, h, k);
    }
  }

  lemma RoundKeepsSteady(block: seq<Program>, init: State, a: LoopState, f: LoopState, e: Config, b: LoopState)
    requires SteadyBlock(block) && SteadyInv(block, init, a) && RoundEffect(block, a, f, e, b)
    ensures SteadyInv(block, init, b)
  {
    hide LoopInv, AllUpdate, NoneHidden, SteadyOn, UpdatesOn, ExecPhase, ValPhase, AllTasksOk, NoStrays, Contained,
      Keyed, Apart, Settled;
    SteadyIsUpdating(block, init);
    RoundKeepsLive(block, init, a, f, e, b);
    FlushLive(block, init, a, f);
    LoopTasks(block, init, a);
    ExecuteKeeps(block, init, a, f, e);
    ExecuteLive(block, a, f, e, FirstNonValidated(a.c.tasks));
    ExecuteKeyed(block, init, a, f, e);
    ValidateSteady(block, e, FirstNonValidated(e.tasks), b.c, b.scheduled);
    FlushKeepsContained(block, init, a, f);
  }

  lemma {:induction false} RunKeepsSteady(block: seq<Program>, init: State, run: seq<Round>)
    requires SteadyBlock(block) && ParallelRun(block, init, run)
    ensures SteadyInv(block, init, RunEnd(block, init, run)) && RunEnd(block, init, run).iterations == |run|
    decreases |run|
  {
    if run == [] {
      LiveStart(block, init);
    } else {
      RunKeepsSteady(block, init, Earlier(run));
      var r := Last(run);
      assert LiveInv(block, init, r.before);
      RoundHasEffect(block, init, r);
      RoundKeepsSteady(block, init, r.before, r.flushed, r.exec[|r.exec| - 1].c, r.after);
    }
  }

  /* The synchronous pass. */

  /** The pass, before it comes to task `i`, on what the loop left: all below is serial, the state is the
      serial state of `mid`, and a task still marked validated is as the loop left it. */
  ghost predicate SteadyPass(block: seq<Program>, init: State, a: Config, c: Config, mid: nat, i: nat)
    requires mid <= i <= |block| == |a.tasks|
  {
    Untouched(a, c, i) && RanPrefix(block, init, c, i) && SameState(c.parent, SerialState(block, init, mid)) &&
    forall j: nat :: j < i && c.tasks[j].status.Validated? ==>
      c.tasks[j] == a.tasks[j] && At(c.table, j) == At(a.table, j)
  }

  lemma RanIsKeyed(block: seq<Program>, init: State, c: Config, j: nat)
    requires SteadyBlock(block) && j < |block| == |c.tasks| && RanSerially(block, init, c, j)
    ensures At(c.table, j).row.Keys == WriteKeys(block[j])
  {
    assert SteadyOn(block[j], SerialState(block, init, j));
  }

  lemma PassIsKeyed(block: seq<Program>, init: State, a: Config, c: Config, mid: nat, i: nat)
    requires SteadyBlock(block) && mid <= i <= |block| == |a.tasks| && Keyed(block, a)
    requires SteadyPass(block, init, a, c, mid, i)
    ensures Keyed(block, c)
  {
    hide RanSerially, SteadyOn, WriteKeys;
    forall j: nat | j < |block| ensures At(c.table, j).row.Keys == WriteKeys(block[j]) {
      if j < i {
        assert RanSerially(block, init, c, j);
        RanIsKeyed(block, init, c, j);
      }
    }
  }

  lemma ApartRows(block: seq<Program>, a: Config, c: Config, lo: nat, hi: nat, m: nat, h: nat, k: StorageKey)
    requires |a.tasks| == |block| && Apart(block, a, lo, hi) && Keyed(block, c)
    requires lo <= m < h < |block| && hi <= h && a.tasks[h].status.Validated?
    ensures k !in At(c.table, m).row || k !in At(c.table, h).row
  {
    assert WriteKeys(block[m]) !! WriteKeys(block[h]);
    assert At(c.table, m).row.Keys == WriteKeys(block[m]) && At(c.table, h).row.Keys == WriteKeys(block[h]);
  }

  /** Nothing that the pass is about to flush is hidden. */
  lemma PassHidesNothing(block: seq<Program>, init: State, a: Config, c: Config, mid: nat, i: nat, lo: nat)
    requires SteadyBlock(block) && mid <= i <= |block| == |a.tasks| && Keyed(block, a) && ReadyForPass(block, a)
    requires SteadyPass(block, init, a, c, mid, i) && NoStrays(a)
    requires lo <= mid && Apart(block, a, lo, FirstNonValidated(a.tasks)) && FirstNonValidated(a.tasks) <= i
    ensures NoneHidden(c.table, mid, i)
  {
    hide SteadyOn, WriteKeys, RanPrefix;
    PassIsKeyed(block, init, a, c, mid, i);
    forall m: nat, h: nat, k | mid <= m < i <= h && k in At(c.table, m).row && k in At(c.table, h).row
      ensures At(c.table, h).row[k].estimate
    {
      assert At(c.table, h) == At(a.table, h);
      assert h < |block|;
      assert TaskOk(block[h], h, a.tasks[h], At(a.table, h));
      if a.tasks[h].status.Validated? {
        ApartRows(block, a, c, lo, FirstNonValidated(a.tasks), m, h, k);
      }
    }
  }

  /** A read of a validated task that does not stand any more is blamed on a task that has been run in the
      pass, and is not marked validated. */
  lemma StaleReadIsBlamed(block: seq<Program>, init: State, a: LoopState, c: Config, h: nat, k: StorageKey)
    requires SteadyBlock(block) && LoopInv(block, init, a) && Keyed(block, a.c)
    requires FirstNonValidated(a.c.tasks) <= h < |block| && a.c.tasks[h].status.Validated?
    requires SteadyPass(block, init, a.c, c, h, h)
    requires k in ReadsetOf(At(c.table, h)) && ReadSettled(a.c, h, k, ReadsetOf(At(c.table, h))[k])
    requires SameState(a.c.parent, SerialState(block, init, a.flushedTo)) && a.flushedTo <= h
    requires |ReadsetOf(At(c.table, h))[k]| == 1 && !KeyStands(c.table, c.parent, h, k, ReadsetOf(At(c.table, h))[k])
    ensures Scan(c.table, h, k).Some? && !c.tasks[Scan(c.table, h, k).value].status.Validated?
    ensures Blames(c.table, h, k, ReadsetOf(At(c.table, h))[k], Scan(c.table, h, k).value)
  {
    hide SteadyOn, WriteKeys, LoopInv;
    PassIsKeyed(block, init, a.c, c, h, h);
    forall m: nat | m < h ensures k in At(c.table, m).row <==> k in At(a.c.table, m).row {
      assert At(c.table, m).row.Keys == At(a.c.table, m).row.Keys;
    }
    ScanFrame(c.table, a.c.table, h, k);
    RanIsEnded(block, init, c, h);
    ScanIsSerial(block, init, c, h, k);
    if Scan(c.table, h, k).None? {
      EarlierState(block, init, c, a.flushedTo, h, k);
    }
  }

  /** Without a writer below `h`, a key has the same serial value at any earlier point. */
  lemma EarlierState(block: seq<Program>, init: State, c: Config, b: nat, h: nat, k: StorageKey)
    requires b <= h <= |block| == |c.tasks| && RanPrefix(block, init, c, h) && Scan(c.table, h, k).None?
    ensures Lookup(SerialState(block, init, b), k) == Lookup(SerialState(block, init, h), k)
  {
    assert RanPrefix(block, init, c, b);
    RanIsEnded(block, init, c, h);
    RanIsEnded(block, init, c, b);
    ScanIsSerial(block, init, c, h, k);
    ScanBelowWindow(c.table, b, h, k);
    ScanIsSerial(block, init, c, b, k);
  }

  /** No task whose readset has gone stale is skipped. */
  lemma NotSkipped(block: seq<Program>, init: State, a: LoopState, c: Config, h: nat)
    requires SteadyBlock(block) && LoopInv(block, init, a) && Keyed(block, a.c)
    requires FirstNonValidated(a.c.tasks) <= h < |block| && a.flushedTo <= h
    requires Settled(a.c, FirstNonValidated(a.c.tasks))
    requires SameState(a.c.parent, SerialState(block, init, a.flushedTo))
    requires SteadyPass(block, init, a.c, c, h, h) && TaskOk(block[h], h, c.tasks[h], At(c.table, h))
    ensures |c.tasks| == |block| && !Skipped(c, h)
  {
    LoopTasks(block, init, a);
    hide SteadyOn, LoopInv, Keyed, KeyStands, Blames, Settled, SteadyPass, SteadyBlock;
    UntouchedAt(a.c, c, h) by {
      PassUntouched(block, init, a.c, c, h);
    }
    var readset := ReadsetOf(At(c.table, h));
    if c.tasks[h].status.Validated? && !ReadsetStands(c.table, c.parent, h, readset) {
      var k :| k in readset && !KeyStands(c.table, c.parent, h, k, readset[k]);
      var q: State :| RanOn(block[h], q, c.tasks[h], At(c.table, h));
      RunRecords(block[h], q, map[], map[]);
      SettledAt(a.c, FirstNonValidated(a.c.tasks), h, k);
      StaleReadIsBlamed(block, init, a, c, h, k);
      assert Scan(c.table, h, k).value in BlamedIndices(c.table, h, readset);
      assert !IsValidated(c.tasks, Scan(c.table, h, k).value);
    }
  }

  lemma PassUntouched(block: seq<Program>, init: State, a: Config, c: Config, i: nat)
    requires i <= |block| == |a.tasks| && SteadyPass(block, init, a, c, i, i)
    ensures Untouched(a, c, i) && RanPrefix(block, init, c, i)
  {
  }

  lemma SettledAt(c: Config, hi: nat, h: nat, k: StorageKey)
    requires Settled(c, hi) && hi <= h < |c.tasks| && c.tasks[h].status.Validated? && k in ReadsetOf(At(c.table, h))
    ensures ReadSettled(c, h, k, ReadsetOf(At(c.table, h))[k])
  {
  }

  /** With the state serial up to a task and everything below it serial, its step meets the condition. */
  lemma SteadyStepStands(block: seq<Program>, init: State, a: LoopState, c: Config, i: nat)
    requires SteadyBlock(block) && SteadyInv(block, init, a) && a.iterations > 0
    requires FirstNonValidated(a.c.tasks) <= i < |block|
    requires SteadyPass(block, init, a.c, c, i, i) && Contained(block, init, c.parent, i)
    ensures |c.tasks| == |block| && StepStands(block, c, i)
  {
    hide SteadyOn, KeyStands, Apart, NoneHidden, AllUpdate, BlockedByEstimate;
    LoopTasks(block, init, a);
    assert TaskOk(block[i], i, a.c.tasks[i], At(a.c.table, i));
    NotSkipped(block, init, a, c, i);
    RunsAsSerial(block, init, c.parent, i);
    RunRecords(block[i], c.parent, map[], map[]);
    RanIsEnded(block, init, c, i);
    var readset := RunFresh(block[i], c.parent).readset;
    StandsIffParentIsCurrent(block, init, c, i, i, readset);
    forall k ensures !BlockedByEstimate(c.table, i, k) {
      ResolvedIsSerial(block, init, c, i, i, k);
    }
  }

  /** The step leaves a task as it is, or it is not validated afterwards. */
  lemma StepLeavesOrRuns(block: seq<Program>, c: Config, i: nat)
    requires i < |block| == |c.tasks| && TaskOk(block[i], i, c.tasks[i], At(c.table, i))
    requires !c.tasks[i].status.Executed? && StepStands(block, c, i)
    ensures var d := ExecuteSync(block, c, i);
            |d.tasks| == |block| &&
            (d.tasks[i].status.Validated? ==> d.tasks[i] == c.tasks[i] && At(d.table, i) == At(c.table, i))
  {
    if !StoredStands(c, i) {
      ReadyIsBlank(block, c, i);
    }
  }

  /** The flush of a step makes the state the serial state of its task. */
  lemma SteadyFlush(block: seq<Program>, init: State, a: LoopState, c: Config, lo: nat, mid: nat, i: nat, p: State)
    requires SteadyBlock(block) && SteadyInv(block, init, a) && a.iterations > 0
    requires FirstNonValidated(a.c.tasks) <= i < |block| == |a.c.tasks| && lo <= mid <= i && a.flushedTo <= mid
    requires SteadyPass(block, init, a.c, c, mid, i) && Contained(block, init, c.parent, i)
    requires Flushed(c.table, lo, i, c.parent, p)
    ensures SteadyPass(block, init, a.c, c.(parent := p), i, i) && Contained(block, init, p, i)
  {
    hide SteadyOn, Apart, NoneHidden, AllUpdate, Settled, Keyed, Contained, RanSerially, TaskOk, Flushed;
    PassStart(block, init, a);
    PassHidesNothing(block, init, a.c, c, mid, i, a.flushedTo);
    forall k ensures Lookup(p, k) == Lookup(SerialState(block, init, i), k) {
      FlushIsSerialAt(block, init, c, lo, mid, i, p, k);
    }
    RanIsEnded(block, init, c, i);
    FlushIsContained(block, init, c, lo, i, i, p);
    RanIsKept(block, init, c, c.(parent := p), i);
  }

  /** The execution of a step, after its flush. */
  lemma SteadyExecute(block: seq<Program>, init: State, a: LoopState, c: Config, i: nat)
    requires SteadyBlock(block) && SteadyInv(block, init, a) && a.iterations > 0
    requires FirstNonValidated(a.c.tasks) <= i < |block| == |a.c.tasks|
    requires SteadyPass(block, init, a.c, c, i, i) && Contained(block, init, c.parent, i)
    ensures var d := ExecuteSync(block, c, i);
            |c.tasks| == |block| && StepStands(block, c, i) && SteadyPass(block, init, a.c, d, i, i + 1)
  {
    PassStart(block, init, a);
    PassUntouched(block, init, a.c, c, i);
    hide *;
    ReadyAt(block, a.c, i);
    UntouchedAt(a.c, c, i);
    SteadyStepStands(block, init, a, c, i);
    RanIsEnded(block, init, c, i);
    var d := ExecuteSync(block, c, i);
    SyncTouchesOne(block, c, i);
    StandingEndsSerially(block, init, c, i);
    SyncStepIsSerialIff(block, init, c, i, i);
    StepLeavesOrRuns(block, c, i);
    StepIsRan(block, init, d, i);
    SteadyGrows(block, init, a.c, c, d, i);
  }

  lemma StandingEndsSerially(block: seq<Program>, init: State, c: Config, i: nat)
    requires i < |block| == |c.tasks| && StepStands(block, c, i)
    ensures StepEndsSerially(block, init, c, i)
  {
  }

  lemma SteadyGrows(block: seq<Program>, init: State, a: Config, c: Config, d: Config, i: nat)
    requires i < |block| == |a.tasks| && SteadyPass(block, init, a, c, i, i)
    requires DiffersAtMostAt(c, d, i) && RanSerially(block, init, d, i)
    requires d.tasks[i].status.Validated? ==> d.tasks[i] == c.tasks[i] && At(d.table, i) == At(c.table, i)
    ensures SteadyPass(block, init, a, d, i, i + 1)
  {
    hide RanSerially;
    RanIsKept(block, init, c, d, i);
  }

  /** One step of the pass with its flush. */
  lemma SteadyStep(block: seq<Program>, init: State, a: LoopState, c: Config, lo: nat, mid: nat, i: nat, p: State,
                   d: Config)
    requires SteadyBlock(block) && SteadyInv(block, init, a) && a.iterations > 0
    requires FirstNonValidated(a.c.tasks) <= i < |block| == |a.c.tasks| && lo <= mid <= i && a.flushedTo <= mid
    requires SteadyPass(block, init, a.c, c, mid, i) && Contained(block, init, c.parent, i)
    requires Flushed(c.table, lo, i, c.parent, p)
    requires |c.tasks| == |block| && d == ExecuteSync(block, c.(parent := p), i)
    ensures StepStands(block, c.(parent := p), i)
    ensures SteadyPass(block, init, a.c, d, i, i + 1) && Contained(block, init, d.parent, i + 1)
  {
    hide *;
    SteadyFlush(block, init, a, c, lo, mid, i, p);
    SteadyExecute(block, init, a, c.(parent := p), i);
    ParentIsKept(block, c.(parent := p), i);
    ContainedGrows(block, init, p, i, i + 1);
  }

  lemma ParentIsKept(block: seq<Program>, c: Config, i: nat)
    requires i < |block| == |c.tasks|
    ensures ExecuteSync(block, c, i).parent == c.parent
  {
    SyncTouchesOne(block, c, i);
  }

  lemma RanIsKept(block: seq<Program>, init: State, c: Config, d: Config, s: nat)
    requires s <= |block| == |c.tasks| == |d.tasks| && RanPrefix(block, init, c, s)
    requires forall j: nat :: j < s ==> d.tasks[j] == c.tasks[j] && At(d.table, j) == At(c.table, j)
    ensures RanPrefix(block, init, d, s)
  {
    forall j: nat | j < s ensures RanSerially(block, init, d, j) {
      assert RanSerially(block, init, c, j);
    }
  }

  lemma StepIsRan(block: seq<Program>, init: State, d: Config, i: nat)
    requires SteadyBlock(block) && i < |block| == |d.tasks| && EndsSerially(block, init, d, i)
    ensures RanSerially(block, init, d, i)
  {
    assert SteadyOn(block[i], SerialState(block, init, i));
    SerialStep(block, init, i);
  }

  lemma NextSteadyStep(block: seq<Program>, init: State, a: LoopState, start: nat, tr: seq<Config>, m: nat, mid: nat)
    requires SteadyBlock(block) && SteadyInv(block, init, a) && a.iterations > 0
    requires start == FirstNonValidated(a.c.tasks) && m + 1 < |tr| && start + m < |block| == |a.c.tasks|
    requires a.flushedTo <= mid && if m == 0 then mid <= start else mid == start + m - 1
    requires SyncStep(block, start, tr[m], start + m, tr[m + 1])
    requires SteadyPass(block, init, a.c, tr[m], mid, start + m) && Contained(block, init, tr[m].parent, start + m)
    ensures |tr[m].tasks| == |block| && StepStands(block, BeforeStep(tr, m), start + m)
    ensures SteadyPass(block, init, a.c, tr[m + 1], start + m, start + m + 1)
    ensures Contained(block, init, tr[m + 1].parent, start + m + 1)
  {
    hide SteadyBlock, SteadyInv, SteadyPass, Contained, ExecuteSync, StepStands, FlushedKey;
    var i := start + m;
    var lo := if i == start then 0 else i - 1;
    assert |tr[m].tasks| == |block| && SyncStep(block, start, tr[m], i, tr[m + 1]);
    var p: State :|
      Flushed(tr[m].table, lo, i, tr[m].parent, p) && tr[m + 1] == ExecuteSync(block, tr[m].(parent := p), i);
    SteadyStep(block, init, a, tr[m], lo, mid, i, p, tr[m + 1]);
    SyncTouchesOne(block, tr[m].(parent := p), i);
    assert BeforeStep(tr, m) == tr[m].(parent := p);
  }

  lemma StandNext(block: seq<Program>, start: nat, tr: seq<Config>, n: nat)
    requires n + 1 < |tr| && start + n < |block| && StepsStand(block, start, tr, n)
    requires |tr[n].tasks| == |block| && StepStands(block, BeforeStep(tr, n), start + n)
    ensures StepsStand(block, start, tr, n + 1)
  {
  }

  /** After any number of steps the pass is steady, and the condition held at each of them. */
  lemma {:induction false} SteadySteps(block: seq<Program>, init: State, a: LoopState, tr: seq<Config>, n: nat)
    requires SteadyBlock(block) && SteadyInv(block, init, a) && a.iterations > 0
    requires SyncTrace(block, FirstNonValidated(a.c.tasks), tr) && tr[0] == a.c && n < |tr|
    ensures var i := FirstNonValidated(a.c.tasks) + n;
            |a.c.tasks| == |block| && i <= |block| && a.flushedTo <= FirstNonValidated(a.c.tasks) &&
            SteadyPass(block, init, a.c, tr[n], if n == 0 then a.flushedTo else i - 1, i) &&
            Contained(block, init, tr[n].parent, i) && StepsStand(block, FirstNonValidated(a.c.tasks), tr, n)
  {
    hide *;
    var start := FirstNonValidated(a.c.tasks);
    TraceLength(block, start, tr);
    if n == 0 {
      SteadyPassBegins(block, init, a, tr);
    } else {
      var m := n - 1;
      SteadySteps(block, init, a, tr, m);
      PathStep(block, start, tr, m);
      NextSteadyStep(block, init, a, start, tr, m, if m == 0 then a.flushedTo else start + m - 1);
      StandNext(block, start, tr, m);
    }
  }

  lemma SteadyPassBegins(block: seq<Program>, init: State, a: LoopState, tr: seq<Config>)
    requires SteadyInv(block, init, a) && |tr| > 0 && tr[0] == a.c
    ensures var start := FirstNonValidated(a.c.tasks);
            |a.c.tasks| == |block| && a.flushedTo <= start &&
            SteadyPass(block, init, a.c, tr[0], a.flushedTo, start + 0) &&
            Contained(block, init, tr[0].parent, start + 0) && StepsStand(block, start, tr, 0)
  {
    hide Contained;
    PassStart(block, init, a);
  }

  /** On a steady block of any length, after any rounds under any interleavings, the condition holds at
      every step of the synchronous pass, and so responses and state are the serial ones. */
  lemma SteadyPassIsSerial(block: seq<Program>, init: State, run: seq<Round>, tr: seq<Config>, final: State)
    requires SteadyBlock(block) && ParallelRun(block, init, run) && run != []
    requires var a := RunEnd(block, init, run);
             SyncTrace(block, FirstNonValidated(a.c.tasks), tr) && tr[0] == a.c
    requires FlushedAll(tr[|tr| - 1].table, tr[|tr| - 1].parent, final)
    ensures SameState(final, SerialState(block, init, |block|)) && |tr[|tr| - 1].tasks| == |block|
    ensures forall j: nat :: j < |block| ==> tr[|tr| - 1].tasks[j].response == SerialResult(block, init, j)
    ensures StepsStand(block, FirstNonValidated(RunEnd(block, init, run).c.tasks), tr, |tr| - 1)
  {
    hide StepsStand, FlushedAll, SteadyInv, SyncPath, EndedPrefix;
    RunKeepsSteady(block, init, run);
    SteadySteps(block, init, RunEnd(block, init, run), tr, |tr| - 1);
    PassIsSerialIff(block, init, run, tr, final);
  }

  /* A steady transaction. */

  predicate IsWord(v: int) {
    0 <= v < TWO_256
  }

  /** Raising a counter by one, whatever it holds, as the bookkeeping does with a nonce. */
  ghost function Bump(k: StorageKey, r: Response): Program {
    Read(k, map v: Hash | 0 <= v < TWO_256 && IsWord(v) :: Write(k, BigToHash(v as int + 1), Done(r)), Fail)
  }

  ghost predicate IsBump(p: Program) {
    exists k, r :: p == Bump(k, r)
  }

  lemma BumpsAreSteady(block: seq<Program>)
    requires forall p :: p in block ==> IsBump(p)
    ensures SteadyBlock(block)
  {
    forall j: nat, s: State | j < |block| ensures SteadyOn(block[j], s) {
      assert IsBump(block[j]);
      var k, r :| block[j] == Bump(k, r);
      BumpRuns(k, r, s);
      BumpRuns(k, r, map[]);
    }
  }

  lemma BumpRuns(k: StorageKey, r: Response, s: State)
    ensures var v := Lookup(s, k);
            RunFresh(Bump(k, r), s) == Outcome(map[k := [v]], map[k := BigToHash(v as int + 1)], Some(r)) &&
            BigToHash(v as int + 1) != v
  {
    var p, v, readset := Bump(k, r), Lookup(s, k), Recorded(s, map[], map[], k);
    var writeset: WriteSet := map[];
    var next := BigToHash(v as int + 1);
    assert readset == map[k := [v]];
    assert IsWord(v);
    assert AfterRead(p, v) == Write(k, next, Done(r));
    assert writeset[k := next] == map[k := next];
    assert Run(Done(r), s, readset, map[k := next]) == Outcome(readset, map[k := next], Some(r));
    assert Run(Write(k, next, Done(r)), s, readset, writeset) == Outcome(readset, map[k := next], Some(r));
    assert RunFresh(p, s) == Run(AfterRead(p, v), s, readset, writeset);
  }
}
