/** Refused transactions in the fallback. A block of nothing but a refused transaction comes out as in the
    serial execution. But a transaction that was first executed and is refused later leaves its estimates
    behind, and a later reader of them then aborts even in the synchronous pass, without a response. */
module Refusal {
  import opened Storage
  import opened Programs
  import opened Table
  import opened Protocol
  import opened ExecutePhase
  import opened ValidatePhase
  import opened Rounds
  import opened Synchronous

  const RECEIPT := Response(0, 0)

  lemma LoneRefusalIsSerial(init: State, run: seq<Round>, tr: seq<Config>, final: State)
    requires ParallelRun([Fail], init, run)
    requires var a := RunEnd([Fail], init, run);
             SyncTrace([Fail], FirstNonValidated(a.c.tasks), tr) && tr[0] == a.c
    requires FlushedAll(tr[|tr| - 1].table, tr[|tr| - 1].parent, final)
    ensures SameState(final, init) && |tr[|tr| - 1].tasks| == 1 && tr[|tr| - 1].tasks[0].response.None?
  {
    hide *;
    var block, a := [Fail], RunEnd([Fail], init, run);
    RunKeepsInv(block, init, run);
    PassStart(block, init, a);
    LoneStepStands(a.c, tr);
    PassIsSerialIff(block, init, run, tr, final);
    LoneSerialRun(init);
  }

  /** A transaction that reads nothing meets the condition of its step. */
  lemma LoneStepStands(c: Config, tr: seq<Config>)
    requires ReadyForPass([Fail], c)
    requires SyncTrace([Fail], FirstNonValidated(c.tasks), tr) && tr[0] == c
    ensures FirstNonValidated(c.tasks) == 0 && |tr| == 2 && StepsStand([Fail], 0, tr, |tr| - 1)
  {
    hide SyncPath;
    assert TaskOk([Fail][0], 0, c.tasks[0], At(c.table, 0));
    assert !c.tasks[0].status.Validated?;
    assert StepStands([Fail], BeforeStep(tr, 0), 0);
  }

  lemma LoneSerialRun(init: State)
    ensures SerialState([Fail], init, 1) == init && SerialResult([Fail], init, 0) == None && |[Fail]| == 1
    ensures forall q: State :: SameState(q, SerialState([Fail], init, |[Fail]|)) ==> SameState(q, init)
  {
    assert ApplyTransaction(Fail, init) == Effect(init, None);
    assert SerialState([Fail], init, 0) == init;
  }

  const KEY := StorageKey(2, 1)
  const MARK := StorageKey(2, 2)

  /** The first transaction writes 5. The second marks that it saw 0, and is refused otherwise. The third
      reads the mark. */
  const BLOCK: seq<Program> := [
    Write(KEY, 5, Done(RECEIPT)),
    Read(KEY, map[0 := Write(MARK, 1, Done(RECEIPT))], Fail),
    Read(MARK, map[], Done(RECEIPT))
  ]

  /** What the three programs record over any parent state. */
  lemma RunsOfBlock(p: State)
    ensures RunFresh(BLOCK[0], p) == Outcome(map[], map[KEY := 5], Some(RECEIPT))
    ensures RunFresh(BLOCK[1], p) ==
            if Lookup(p, KEY) == 0 then Outcome(map[KEY := [0]], map[MARK := 1], Some(RECEIPT))
            else Outcome(map[KEY := [Lookup(p, KEY)]], map[], None)
    ensures RunFresh(BLOCK[2], p) == Outcome(map[MARK := [Lookup(p, MARK)]], map[], Some(RECEIPT))
  {
    var writeset: WriteSet := map[];
    assert writeset[KEY := 5] == map[KEY := 5] && writeset[MARK := 1] == map[MARK := 1];
    assert Run(Done(RECEIPT), p, map[], map[KEY := 5]) == Outcome(map[], map[KEY := 5], Some(RECEIPT));
    var readset: ReadSet := map[KEY := [Lookup(p, KEY)]];
    assert Recorded(p, map[], map[], KEY) == readset;
    assert RunFresh(BLOCK[1], p) == Run(AfterRead(BLOCK[1], Lookup(p, KEY)), p, readset, writeset);
    assert Run(Done(RECEIPT), p, readset, map[MARK := 1]) == Outcome(readset, map[MARK := 1], Some(RECEIPT));
    assert Run(Write(MARK, 1, Done(RECEIPT)), p, readset, writeset) == Outcome(readset, map[MARK := 1], Some(RECEIPT));
    assert Run(Fail, p, readset, writeset) == Outcome(readset, map[], None);
    var marked: ReadSet := map[MARK := [Lookup(p, MARK)]];
    assert Recorded(p, map[], map[], MARK) == marked;
    assert RunFresh(BLOCK[2], p) == Run(AfterRead(BLOCK[2], Lookup(p, MARK)), p, marked, writeset);
    assert Run(Done(RECEIPT), p, marked, writeset) == Outcome(marked, map[], Some(RECEIPT));
  }

  /** The serial execution refuses the second transaction, and writes one key only. */
  lemma SerialRun()
    ensures Lookup(SerialState(BLOCK, map[], 1), KEY) == 5
    ensures SerialResult(BLOCK, map[], 1) == None && SerialResult(BLOCK, map[], 2) == Some(RECEIPT)
    ensures forall i: nat :: i < 3 ==> !Writes(BLOCK, map[], i, MARK)
  {
    var init: State := map[];
    assert SerialState(BLOCK, init, 0) == init;
    forall i: nat | i < 3 ensures SerialOutcome(BLOCK, init, i).result == SerialResult(BLOCK, init, i) {
      RunsOfBlock(SerialState(BLOCK, init, i));
      SerialStep(BLOCK, init, i);
    }
    RunsOfBlock(init);
    SerialStep(BLOCK, init, 0);
    RunsOfBlock(SerialState(BLOCK, init, 1));
    RunsOfBlock(SerialState(BLOCK, init, 2));
  }

  /** Whatever has been flushed, the mark is not in the shared state. */
  lemma MarkIsNotFlushed(parent: State, b: nat)
    requires b <= 3 && Contained(BLOCK, map[], parent, b)
    ensures Lookup(parent, MARK) == 0
  {
    SerialRun();
    assert !WrittenBelow(BLOCK, map[], b, MARK, Lookup(parent, MARK));
  }

  /** After a round the first transaction is validated, the second has been demoted and left an estimate of
      the mark, and the third is not validated. */
  ghost predicate Shadowed(a: LoopState) {
    |a.c.tasks| == 3 &&
    if a.iterations == 0 then a == InitialLoop(BLOCK, map[])
    else
      a.c.tasks[0].status.Validated? && !a.c.tasks[1].status.Validated? && !a.c.tasks[2].status.Validated? &&
      MARK in At(a.c.table, 1).row
  }

  lemma FirstIsValidated(a: LoopState, f: LoopState, e: Config, b: LoopState)
    requires LoopInv(BLOCK, map[], a) && Shadowed(a) && RoundEffect(BLOCK, a, f, e, b)
    ensures |b.c.tasks| == 3 && b.c.tasks[0].status.Validated?
  {
    RoundKeepsInv(BLOCK, map[], a, f, e, b);
    if a.iterations == 0 {
      assert FirstNonValidated(a.c.tasks) == 0;
      assert a.scheduled[0] == 0;
      RunsOfBlock(f.c.parent);
      ProgressIffParentIsCurrent(BLOCK, map[], a, f, e, b);
    }
  }

  /** The second transaction has a version of the mark after every execution phase. */
  lemma MarkHasVersion(a: LoopState, f: LoopState, e: Config)
    requires LoopInv(BLOCK, map[], a) && Shadowed(a) && FlushStep(a, f)
    requires ExecPhase(BLOCK, f.c, ScheduledSet(a.scheduled), e)
    ensures MARK in At(e.table, 1).row
    ensures e.tasks[1].status.Executed? ==> ReadsetOf(At(e.table, 1)) == map[KEY := [0]]
  {
    ScheduledIsPending(a);
    RunsOfBlock(f.c.parent);
    if 1 in ScheduledSet(a.scheduled) {
      assert ExecResult(RunFresh(BLOCK[1], f.c.parent), 1, a.c.tasks[1], At(a.c.table, 1), e.tasks[1], At(e.table, 1));
      if a.iterations == 0 {
        assert a.flushedTo == 0 && f.c.parent == map[];
      }
    } else {
      assert a.iterations != 0;
      assert e.tasks[1] == a.c.tasks[1] && At(e.table, 1) == At(a.c.table, 1);
    }
  }

  lemma FirstHasVersion(a: LoopState, f: LoopState, e: Config)
    requires LoopInv(BLOCK, map[], a) && Shadowed(a) && FlushStep(a, f)
    requires ExecPhase(BLOCK, f.c, ScheduledSet(a.scheduled), e)
    ensures KEY in At(e.table, 0).row && At(e.table, 0).row[KEY].value == 5
  {
    ScheduledIsPending(a);
    RunsOfBlock(f.c.parent);
    if a.iterations == 0 {
      assert a.scheduled[0] == 0;
      assert ExecResult(RunFresh(BLOCK[0], f.c.parent), 0, a.c.tasks[0], At(a.c.table, 0), e.tasks[0], At(e.table, 0));
    } else {
      assert RanSerially(BLOCK, map[], a.c, 0);
      RunsOfBlock(SerialState(BLOCK, map[], 0));
      assert 0 !in ScheduledSet(a.scheduled);
    }
  }

  /** The third transaction, whenever it has run, has read 0 under the mark. */
  lemma ThirdReadsZero(a: LoopState, f: LoopState, e: Config)
    requires LoopInv(BLOCK, map[], a) && Shadowed(a) && FlushStep(a, f)
    requires ExecPhase(BLOCK, f.c, ScheduledSet(a.scheduled), e) && Checkable(e.tasks[2])
    ensures ReadsetOf(At(e.table, 2)) == map[MARK := [0]]
  {
    ScheduledIsPending(a);
    FlushKeepsContained(BLOCK, map[], a, f);
    MarkIsNotFlushed(f.c.parent, f.flushedTo);
    RunsOfBlock(f.c.parent);
    assert 2 in ScheduledSet(a.scheduled);
    assert ExecResult(RunFresh(BLOCK[2], f.c.parent), 2, a.c.tasks[2], At(a.c.table, 2), e.tasks[2], At(e.table, 2));
  }

  /** The readset of the second transaction does not stand above the first one's write. */
  lemma SecondFails(e: Config)
    requires KEY in At(e.table, 0).row && At(e.table, 0).row[KEY].value == 5
    ensures !KeyStands(e.table, e.parent, 1, KEY, [0])
  {
    assert Scan(e.table, 1, KEY) == Some(0);
  }

  lemma ThirdFails(e: Config)
    requires MARK in At(e.table, 1).row
    requires At(e.table, 1).row[MARK].estimate || At(e.table, 1).row[MARK].value == 1
    ensures !KeyStands(e.table, e.parent, 2, MARK, [0])
  {
    assert Scan(e.table, 2, MARK) == Some(1);
  }

  lemma ValidatedStood(e: Config, start: nat, c: Config, emitted: seq<nat>, j: nat)
    requires ValPhase(e, start, c, emitted) && start <= j < |c.tasks|
    ensures c.tasks[j].status.Validated? ==>
              Checkable(e.tasks[j]) && ReadsetStands(e.table, e.parent, j, ReadsetOf(At(e.table, j)))
    ensures At(c.table, j).row.Keys == At(e.table, j).row.Keys
  {
    assert ValResult(e.tasks[j], At(e.table, j), c.tasks[j], At(c.table, j));
  }

  lemma ShadowStays(a: LoopState, f: LoopState, e: Config, b: LoopState)
    requires LoopInv(BLOCK, map[], a) && Shadowed(a) && RoundEffect(BLOCK, a, f, e, b)
    ensures Shadowed(b)
  {
    hide LoopInv, FlushStep, ExecPhase, ValPhase, AllTasksOk, SerialPrefix, KeyStands;
    FirstIsValidated(a, f, e, b);
    MarkHasVersion(a, f, e);
    MarkVersionsAreNotZero(a, f, e);
    FirstHasVersion(a, f, e);
    ExecuteKeeps(BLOCK, map[], a, f, e);
    var start := FirstNonValidated(e.tasks);
    SecondIsLeft(a, f, e);
    ValidatedStood(e, start, b.c, b.scheduled, 1);
    ValidatedStood(e, start, b.c, b.scheduled, 2);
    SecondFails(e);
    ThirdFails(e);
    if Checkable(e.tasks[2]) {
      ThirdReadsZero(a, f, e);
      assert MARK in ReadsetOf(At(e.table, 2));
    }
    if Checkable(e.tasks[1]) {
      assert KEY in ReadsetOf(At(e.table, 1));
    }
  }

  lemma SecondIsLeft(a: LoopState, f: LoopState, e: Config)
    requires LoopInv(BLOCK, map[], a) && Shadowed(a) && FlushStep(a, f)
    requires ExecPhase(BLOCK, f.c, ScheduledSet(a.scheduled), e)
    ensures |e.tasks| == 3 && FirstNonValidated(e.tasks) <= 1 && !e.tasks[1].status.Validated?
  {
    ScheduledIsPending(a);
    if 1 in ScheduledSet(a.scheduled) {
      RunsOfBlock(f.c.parent);
      assert ExecResult(RunFresh(BLOCK[1], f.c.parent), 1, a.c.tasks[1], At(a.c.table, 1), e.tasks[1], At(e.table, 1));
    }
  }

  lemma MarkVersionsAreNotZero(a: LoopState, f: LoopState, e: Config)
    requires LoopInv(BLOCK, map[], a) && Shadowed(a) && FlushStep(a, f)
    requires ExecPhase(BLOCK, f.c, ScheduledSet(a.scheduled), e) && FirstNonValidated(a.c.tasks) < |a.c.tasks|
    ensures MARK in At(e.table, 1).row ==> At(e.table, 1).row[MARK].estimate || At(e.table, 1).row[MARK].value == 1
  {
    ExecuteKeeps(BLOCK, map[], a, f, e);
    assert TaskOk(BLOCK[1], 1, e.tasks[1], At(e.table, 1));
    if Checkable(e.tasks[1]) {
      var q: State :| RanOn(BLOCK[1], q, e.tasks[1], At(e.table, 1));
      RunsOfBlock(q);
    }
  }

  /** No run of this block validates the second or the third transaction, under any interleaving. */
  lemma {:induction false} AlwaysShadowed(run: seq<Round>)
    requires ParallelRun(BLOCK, map[], run)
    ensures Shadowed(RunEnd(BLOCK, map[], run)) && RunEnd(BLOCK, map[], run).iterations == |run|
    decreases |run|
  {
    if run != [] {
      AlwaysShadowed(Earlier(run));
      RunKeepsInv(BLOCK, map[], Earlier(run));
      var r := Last(run);
      RoundHasEffect(BLOCK, map[], r);
      ShadowStays(r.before, r.flushed, r.exec[|r.exec| - 1].c, r.after);
    }
  }

  /** The first step of the pass refuses the second transaction and leaves its estimate of the mark. */
  lemma SecondIsRefused(c: Config, d: Config)
    requires |c.tasks| == 3 && AllTasksOk(BLOCK, c) && NoStrays(c) && RanSerially(BLOCK, map[], c, 0)
    requires !Checkable(c.tasks[1]) && !Checkable(c.tasks[2]) && MARK in At(c.table, 1).row
    requires SyncStep(BLOCK, 1, c, 1, d)
    ensures |d.tasks| == 3 && MARK in At(d.table, 1).row && At(d.table, 1).row[MARK].estimate
    ensures d.tasks[2] == c.tasks[2] && At(d.table, 2) == At(c.table, 2)
  {
    hide ExecuteSync, Reruns, RanSerially, BlockedByEstimate;
    assert TaskOk(BLOCK[1], 1, c.tasks[1], At(c.table, 1));
    KeyIsFlushed(c);
    var p: State :| Flushed(c.table, 0, 1, c.parent, p) && d == ExecuteSync(BLOCK, c.(parent := p), 1);
    assert FlushedKey(c.table, 0, 1, KEY, Lookup(c.parent, KEY), Lookup(p, KEY));
    var flushed := c.(parent := p);
    RunsOfBlock(p);
    SyncTouchesOne(BLOCK, flushed, 1);
    RefusedLeavesSlot(flushed);
  }

  /** Being reset and refused again takes no version away. */
  lemma RefusedLeavesSlot(c: Config)
    requires |c.tasks| == 3 && !Checkable(c.tasks[1]) && RunFresh(BLOCK[1], c.parent).result.None?
    requires MARK in At(c.table, 1).row && At(c.table, 1).row[MARK].estimate
    ensures At(ExecuteSync(BLOCK, c, 1).table, 1).row == At(c.table, 1).row
  {
  }

  lemma KeyIsFlushed(c: Config)
    requires |c.tasks| == 3 && AllTasksOk(BLOCK, c) && NoStrays(c) && RanSerially(BLOCK, map[], c, 0)
    requires !Checkable(c.tasks[1]) && !Checkable(c.tasks[2])
    ensures Newest(c.table, KEY, 0) && At(c.table, 0).row[KEY].value == 5
  {
    assert TaskOk(BLOCK[1], 1, c.tasks[1], At(c.table, 1));
    assert TaskOk(BLOCK[2], 2, c.tasks[2], At(c.table, 2));
    RunsOfBlock(SerialState(BLOCK, map[], 0));
  }

  /** The second step runs the third transaction into that estimate. */
  lemma ThirdAborts(c: Config, d: Config)
    requires |c.tasks| == 3 && MARK in At(c.table, 1).row && At(c.table, 1).row[MARK].estimate
    requires TaskOk(BLOCK[2], 2, c.tasks[2], At(c.table, 2)) && !Checkable(c.tasks[2])
    requires SyncStep(BLOCK, 1, c, 2, d)
    ensures |d.tasks| == 3 && d.tasks[2].response.None?
  {
    var p: State :| Flushed(c.table, 1, 2, c.parent, p) && d == ExecuteSync(BLOCK, c.(parent := p), 2);
    var flushed := c.(parent := p);
    RunsOfBlock(p);
    ReadyIsBlank(BLOCK, flushed, 2);
    AloneLeaves(BLOCK, ReadyConfig(flushed, 2), 2);
    ScanFrame(ReadyConfig(flushed, 2).table, c.table, 2, MARK);
    assert BlockedByEstimate(c.table, 2, MARK);
  }

  /** What the pass starts from. */
  lemma ShadowedForPass(a: LoopState)
    requires LoopInv(BLOCK, map[], a) && Shadowed(a) && a.iterations > 0
    ensures |a.c.tasks| == |BLOCK| == 3 && FirstNonValidated(a.c.tasks) == 1
    ensures AllTasksOk(BLOCK, a.c) && NoStrays(a.c) && RanSerially(BLOCK, map[], a.c, 0)
    ensures !Checkable(a.c.tasks[1]) && !Checkable(a.c.tasks[2]) && MARK in At(a.c.table, 1).row
    ensures TaskOk(BLOCK[2], 2, a.c.tasks[2], At(a.c.table, 2))
  {
  }

  lemma RoundsHavePassed(run: seq<Round>)
    requires |run| == 10
    ensures |run| > 0
  {
  }

  /** For this block, after ten rounds under any interleavings, the synchronous pass leaves the third
      transaction without the response that the serial execution gives it: a step did not end serially. */
  lemma ReaderOfRefusedAborts(run: seq<Round>, tr: seq<Config>, final: State)
    requires ParallelRun(BLOCK, map[], run) && |run| == 10
    requires var a := RunEnd(BLOCK, map[], run);
             SyncTrace(BLOCK, FirstNonValidated(a.c.tasks), tr) && tr[0] == a.c
    requires FlushedAll(tr[|tr| - 1].table, tr[|tr| - 1].parent, final)
    ensures |tr[|tr| - 1].tasks| == 3 && tr[|tr| - 1].tasks[2].response.None?
    ensures SerialResult(BLOCK, map[], 2) == Some(RECEIPT)
    ensures |tr| == 3 && !StepsEndSerially(BLOCK, map[], 1, tr, 2)
  {
    hide *;
    RoundsHavePassed(run);
    var a := RunEnd(BLOCK, map[], run);
    RunKeepsInv(BLOCK, map[], run);
    AlwaysShadowed(run);
    SerialRun();
    ShadowedForPass(a);
    TraceLength(BLOCK, 1, tr);
    PathStep(BLOCK, 1, tr, 0);
    PathStep(BLOCK, 1, tr, 1);
    SecondIsRefused(tr[0], tr[1]);
    ThirdAborts(tr[1], tr[2]);
    PassIsSerialIff(BLOCK, map[], run, tr, final);
  }
}
