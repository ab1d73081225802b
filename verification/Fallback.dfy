/** A block that falls back under every interleaving, and that the synchronous pass then gets wrong. */
module Fallback {
  import opened Storage
  import opened Programs
  import opened Table
  import opened Sessions
  import opened Protocol
  import opened ExecutePhase
  import opened ValidatePhase
  import opened Rounds
  import opened Synchronous

  const KEY := StorageKey(1, 1)
  const MARK := StorageKey(1, 2)
  const RECEIPT := Response(0, 0)

  /** The first transaction writes 5, the second marks that it saw 5, the third writes 7 unread. */
  const BLOCK: seq<Program> := [
    Write(KEY, 5, Done(RECEIPT)),
    Read(KEY, map[5 := Write(MARK, 1, Done(RECEIPT))], Done(RECEIPT)),
    Write(KEY, 7, Done(RECEIPT))
  ]

  lemma WriteApplies(k: StorageKey, v: Hash, s: State)
    ensures Apply(Write(k, v, Done(RECEIPT)), s) == Effect(s[k := v], Some(RECEIPT))
    ensures RunFresh(Write(k, v, Done(RECEIPT)), s) == Outcome(map[], map[k := v], Some(RECEIPT))
  {
    assert Apply(Done(RECEIPT), s[k := v]) == Effect(s[k := v], Some(RECEIPT));
    assert Run(Done(RECEIPT), s, map[], map[k := v]) == Outcome(map[], map[k := v], Some(RECEIPT));
  }

  lemma SerialRunMarks()
    ensures Lookup(SerialState(BLOCK, map[], 3), MARK) == 1
    ensures Lookup(SerialState(BLOCK, map[], 1), KEY) == 5
    ensures MARK !in SerialOutcome(BLOCK, map[], 0).writeset
  {
    var s0: State := map[];
    assert SerialState(BLOCK, s0, 0) == s0;
    WriteApplies(KEY, 5, s0);
    var s1 := s0[KEY := 5];
    assert SerialState(BLOCK, s0, 1) == s1;
    assert AfterRead(BLOCK[1], 5) == Write(MARK, 1, Done(RECEIPT));
    assert Apply(BLOCK[1], s1) == Apply(AfterRead(BLOCK[1], 5), s1);
    WriteApplies(MARK, 1, s1);
    var s2 := s1[MARK := 1];
    assert SerialState(BLOCK, s0, 2) == s2;
    WriteApplies(KEY, 7, s2);
    assert SerialState(BLOCK, s0, 3) == s2[KEY := 7];
    RunsOfBlock(s0);
  }

  /** What the three programs record over a parent state that holds 0 under the key. */
  lemma RunsOfBlock(p: State)
    ensures RunFresh(BLOCK[0], p) == Outcome(map[], map[KEY := 5], Some(RECEIPT))
    ensures RunFresh(BLOCK[2], p) == Outcome(map[], map[KEY := 7], Some(RECEIPT))
    ensures Lookup(p, KEY) == 0 ==> RunFresh(BLOCK[1], p) == Outcome(map[KEY := [0]], map[], Some(RECEIPT))
  {
    WriteApplies(KEY, 5, p);
    WriteApplies(KEY, 7, p);
    if Lookup(p, KEY) == 0 {
      var readset: ReadSet := map[KEY := [0]];
      assert Recorded(p, map[], map[], KEY) == readset;
      assert Run(Done(RECEIPT), p, readset, map[]) == Outcome(readset, map[], Some(RECEIPT));
    }
  }

  /** The third transaction's version hides the first one's from every flush, so the parent state keeps
      the old value, and the second transaction never reads anything else. */
  ghost predicate Stuck(a: LoopState) {
    |a.c.tasks| == 3 && Lookup(a.c.parent, KEY) == 0 && !a.c.tasks[1].status.Validated? &&
    if a.iterations == 0 then a.c.tasks[0].status.Pending? && a.c.tasks[2].status.Pending?
    else a.c.tasks[0].status.Validated? && a.c.tasks[2].status.Validated?
  }

  lemma HiddenByThird(c: Config)
    requires AllTasksOk(BLOCK, c) && NoStrays(c) && c.tasks[2].status.Validated?
    ensures Newest(c.table, KEY, 2) && At(c.table, 2).readset == Some(map[])
  {
    assert TaskOk(BLOCK[2], 2, c.tasks[2], At(c.table, 2));
    var q: State :| RanOn(BLOCK[2], q, c.tasks[2], At(c.table, 2));
    RunsOfBlock(q);
    assert KEY in At(c.table, 2).row;
  }

  lemma StuckFlush(a: LoopState, f: LoopState)
    requires LoopInv(BLOCK, map[], a) && Stuck(a) && FlushStep(a, f)
    ensures Lookup(f.c.parent, KEY) == 0
  {
    if a.iterations != 0 {
      HiddenByThird(a.c);
      assert FirstNonValidated(a.c.tasks) <= 1;
      if FirstNonValidated(a.c.tasks) > a.flushedTo {
        assert FlushedKey(a.c.table, a.flushedTo, FirstNonValidated(a.c.tasks), KEY,
                          Lookup(a.c.parent, KEY), Lookup(f.c.parent, KEY));
      }
    }
  }

  /** A scheduled blind write is executed, not aborted, and has nothing to check afterwards. */
  lemma BlindWritePasses(e: Config, t0: Task, s0: Slot, b: LoopState, i: nat)
    requires i == 0 || i == 2
    requires |e.tasks| == 3 && FirstNonValidated(e.tasks) <= i &&
             ValPhase(e, FirstNonValidated(e.tasks), b.c, b.scheduled)
    requires (e.tasks[i].status.Validated? && ReadsetOf(At(e.table, i)) == map[]) ||
             exists p: State :: ExecResult(RunFresh(BLOCK[i], p), i, t0, s0, e.tasks[i], At(e.table, i))
    ensures b.c.tasks[i].status.Validated?
  {
    if !(e.tasks[i].status.Validated? && ReadsetOf(At(e.table, i)) == map[]) {
      var p: State :| ExecResult(RunFresh(BLOCK[i], p), i, t0, s0, e.tasks[i], At(e.table, i));
      RunsOfBlock(p);
    }
    assert Checkable(e.tasks[i]) && ReadsetOf(At(e.table, i)) == map[];
    assert ValResult(e.tasks[i], At(e.table, i), b.c.tasks[i], At(b.c.table, i));
  }

  /** Whenever the second transaction has run, it has read 0. */
  lemma SecondReadsZero(a: LoopState, f: LoopState, e: Config)
    requires LoopInv(BLOCK, map[], a) && Stuck(a) && FlushStep(a, f)
    requires ExecPhase(BLOCK, f.c, ScheduledSet(a.scheduled), e) && Checkable(e.tasks[1])
    ensures At(e.table, 1).readset == Some(map[KEY := [0]])
  {
    ScheduledIsPending(a);
    StuckFlush(a, f);
    RunsOfBlock(f.c.parent);
    assert 1 in ScheduledSet(a.scheduled);
    assert ExecResult(RunFresh(BLOCK[1], f.c.parent), 1, a.c.tasks[1], At(a.c.table, 1), e.tasks[1], At(e.table, 1));
  }

  lemma SecondNeverPasses(a: LoopState, f: LoopState, e: Config, b: LoopState)
    requires LoopInv(BLOCK, map[], a) && Stuck(a) && RoundEffect(BLOCK, a, f, e, b)
    requires |b.c.tasks| == 3 && b.c.tasks[0].status.Validated?
    ensures !b.c.tasks[1].status.Validated?
  {
    RoundKeepsInv(BLOCK, map[], a, f, e, b);
    if b.c.tasks[1].status.Validated? {
      assert FirstNonValidated(b.c.tasks) >= 2;
      assert SerialTask(BLOCK, map[], b.c, 1);
      SerialReadsFive(b.c.tasks[1], At(b.c.table, 1));
      ValidatedWasCheckable(a, f, e, b);
      SecondReadsZero(a, f, e);
    }
  }

  lemma ValidatedWasCheckable(a: LoopState, f: LoopState, e: Config, b: LoopState)
    requires LoopInv(BLOCK, map[], a) && Stuck(a) && RoundEffect(BLOCK, a, f, e, b)
    requires |b.c.tasks| == 3 && b.c.tasks[1].status.Validated?
    ensures Checkable(e.tasks[1]) && At(b.c.table, 1) == At(e.table, 1)
  {
    ExecuteKeeps(BLOCK, map[], a, f, e);
    assert FirstNonValidated(e.tasks) <= 1;
    assert ValResult(e.tasks[1], At(e.table, 1), b.c.tasks[1], At(b.c.table, 1));
  }

  lemma SerialReadsFive(t: Task, s: Slot)
    requires RanOn(BLOCK[1], SerialState(BLOCK, map[], 1), t, s)
    ensures s.readset.Some? && KEY in s.readset.value && s.readset.value[KEY] == [5]
  {
    var p := SerialState(BLOCK, map[], 1);
    SerialRunMarks();
    var readset := Recorded(p, map[], map[], KEY);
    assert readset == map[KEY := [5]];
    assert RunFresh(BLOCK[1], p) == Run(AfterRead(BLOCK[1], 5), p, readset, map[]);
    RunRecords(AfterRead(BLOCK[1], 5), p, readset, map[]);
  }

  lemma StuckStays(a: LoopState, f: LoopState, e: Config, b: LoopState)
    requires LoopInv(BLOCK, map[], a) && Stuck(a) && RoundEffect(BLOCK, a, f, e, b)
    ensures Stuck(b)
  {
    ScheduledIsPending(a);
    StuckFlush(a, f);
    ExecuteKeeps(BLOCK, map[], a, f, e);
    var start := FirstNonValidated(e.tasks);
    assert start == FirstNonValidated(a.c.tasks);
    if a.iterations == 0 {
      assert start == 0;
      BlindWritePasses(e, a.c.tasks[0], At(a.c.table, 0), b, 0);
      BlindWritePasses(e, a.c.tasks[2], At(a.c.table, 2), b, 2);
    } else {
      assert start == 1;
      HiddenByThird(a.c);
      BlindWritePasses(e, a.c.tasks[2], At(a.c.table, 2), b, 2);
    }
    SecondNeverPasses(a, f, e, b);
  }

  /** In no run of this block, under no interleaving, are all tasks ever validated. */
  lemma {:induction false} AlwaysFallsBack(run: seq<Round>)
    requires ParallelRun(BLOCK, map[], run)
    ensures Stuck(RunEnd(BLOCK, map[], run)) && FirstNonValidated(RunEnd(BLOCK, map[], run).c.tasks) <= 1
    decreases |run|
  {
    if run != [] {
      AlwaysFallsBack(Earlier(run));
      RunKeepsInv(BLOCK, map[], Earlier(run));
      var r := Last(run);
      RoundHasEffect(BLOCK, map[], r);
      StuckStays(r.before, r.flushed, r.exec[|r.exec| - 1].c, r.after);
    }
  }

  /** The second transaction, executed alone on the stale parent state, marks nothing. */
  lemma SecondAlone(c: Config)
    requires |c.tasks| == 3 && Lookup(c.parent, KEY) == 0 && Scan(c.table, 1, KEY) == Some(0)
    requires !At(c.table, 0).row[KEY].estimate && Supported(At(c.table, 1))
    ensures var d := ExecuteAlone(BLOCK, c, 1);
            d.parent == c.parent && |d.tasks| == 3 && d.tasks[2] == c.tasks[2] &&
            At(d.table, 1).row == map[] && forall i: nat :: i != 1 ==> At(d.table, i) == At(c.table, i)
  {
    var s := SessionRun(BLOCK[1], c.table, c.parent, 1, NEW_SESSION);
    SessionRunRecords(BLOCK[1], c.table, c.parent, 1, NEW_SESSION);
    SessionAbortIsExact(BLOCK[1], c.table, c.parent, 1, NEW_SESSION);
    RunsOfBlock(c.parent);
    assert s.writeset == map[] && s.abort.None?;
    var slot := At(c.table, 1);
    assert (slot.row - ListedKeys(slot)) + WrittenRow(c.tasks[1].incarnation, map[]) == map[];
  }

  /** Only the key itself has versions, and the parent state does not hold the mark. */
  ghost predicate MarkFree(c: Config) {
    |c.tasks| == 3 && Lookup(c.parent, MARK) == 0 && !HasNewest(c.table, MARK) &&
    c.tasks[2].status.Validated? && At(c.table, 2).readset == Some(map[])
  }

  lemma NoMarkFlushed(c: Config, p: State)
    requires MarkFree(c) && Flushed(c.table, 1, 2, c.parent, p)
    ensures Lookup(p, MARK) == 0
  {
    assert FlushedKey(c.table, 1, 2, MARK, Lookup(c.parent, MARK), Lookup(p, MARK));
  }

  /** The store when the fallback begins: the second transaction is the only one that could mark. */
  ghost predicate StuckStore(c: Config) {
    |c.tasks| == 3 && Lookup(c.parent, KEY) == 0 && Lookup(c.parent, MARK) == 0 &&
    !c.tasks[1].status.Validated? && c.tasks[2].status.Validated? &&
    At(c.table, 2).readset == Some(map[]) && Newest(c.table, KEY, 2) &&
    Scan(c.table, 1, KEY) == Some(0) && !At(c.table, 0).row[KEY].estimate &&
    Supported(At(c.table, 1)) && OnlyEstimates(At(c.table, 1).row) &&
    forall i: nat :: i != 1 ==> MARK !in At(c.table, i).row
  }

  lemma StuckEndsInStuckStore(a: LoopState)
    requires LoopInv(BLOCK, map[], a) && Stuck(a) && a.iterations != 0
    ensures StuckStore(a.c)
  {
    HiddenByThird(a.c);
    assert FirstNonValidated(a.c.tasks) == 1;
    assert SerialTask(BLOCK, map[], a.c, 0);
    RunsOfBlock(SerialState(BLOCK, map[], 0));
    SerialRunMarks();
    assert TaskOk(BLOCK[1], 1, a.c.tasks[1], At(a.c.table, 1));
    ThirdWritesOneKey(a.c);
  }

  lemma ThirdWritesOneKey(c: Config)
    requires AllTasksOk(BLOCK, c) && |c.tasks| == 3 && c.tasks[2].status.Validated?
    ensures MARK !in At(c.table, 2).row
  {
    assert TaskOk(BLOCK[2], 2, c.tasks[2], At(c.table, 2));
    var q: State :| RanOn(BLOCK[2], q, c.tasks[2], At(c.table, 2));
    RunsOfBlock(q);
  }

  lemma FirstSyncStep(c: Config, d: Config)
    requires StuckStore(c) && SyncStep(BLOCK, 1, c, 1, d)
    ensures MarkFree(d)
  {
    var p: State :| Flushed(c.table, 0, 1, c.parent, p) && d == ExecuteSync(BLOCK, c.(parent := p), 1);
    assert FlushedKey(c.table, 0, 1, KEY, Lookup(c.parent, KEY), Lookup(p, KEY));
    assert FlushedKey(c.table, 0, 1, MARK, Lookup(c.parent, MARK), Lookup(p, MARK));
    assert !HasNewest(c.table, MARK);
    var flushed := c.(parent := p);
    var ready := if c.tasks[1].status.Pending? then flushed
                 else flushed.(tasks := c.tasks[1 := ResetTask(c.tasks[1])]);
    assert d == ExecuteAlone(BLOCK, ready, 1);
    SecondAlone(ready);
  }

  lemma SecondSyncStep(c: Config, d: Config)
    requires MarkFree(c) && SyncStep(BLOCK, 1, c, 2, d)
    ensures Lookup(d.parent, MARK) == 0 && !HasNewest(d.table, MARK)
  {
    var p: State :| Flushed(c.table, 1, 2, c.parent, p) && d == ExecuteSync(BLOCK, c.(parent := p), 2);
    NoMarkFlushed(c, p);
    assert Revalidate(c.(parent := p), 2).tasks[2].status.Validated?;
  }

  /** The synchronous pass over the second and the third transaction leaves no version of the mark. */
  lemma SyncPassMarksNothing(c: Config, tr: seq<Config>, final: State)
    requires StuckStore(c) && SyncTrace(BLOCK, 1, tr) && tr[0] == c
    requires FlushedAll(tr[2].table, tr[2].parent, final)
    ensures Lookup(final, MARK) == 0
  {
    assert SyncStep(BLOCK, 1, tr[0], 1 + 0, tr[1]);
    assert SyncStep(BLOCK, 1, tr[1], 1 + 1, tr[2]);
    FirstSyncStep(c, tr[1]);
    SecondSyncStep(tr[1], tr[2]);
    assert FlushedKeyAll(tr[2].table, MARK, Lookup(tr[2].parent, MARK), Lookup(final, MARK));
  }

  /** At the very first step of the pass the condition fails: on the parent state the second transaction
      reads 0, where the store has 5. */
  lemma SecondStepFails(a: LoopState, tr: seq<Config>)
    requires LoopInv(BLOCK, map[], a) && Stuck(a) && a.iterations != 0
    requires FirstNonValidated(a.c.tasks) == 1 && SyncTrace(BLOCK, 1, tr) && tr[0] == a.c
    ensures !StepStands(BLOCK, BeforeStep(tr, 0), 1)
  {
    assert SyncStep(BLOCK, 1, tr[0], 1 + 0, tr[1]);
    StuckEndsInStuckStore(a);
    var c := BeforeStep(tr, 0);
    assert FlushedKey(a.c.table, 0, 1, KEY, Lookup(a.c.parent, KEY), Lookup(c.parent, KEY));
    RunsOfBlock(c.parent);
    RunsOfBlock(SerialState(BLOCK, map[], 0));
    assert SerialTask(BLOCK, map[], a.c, 0);
    assert !KeyStands(c.table, c.parent, 1, KEY, [0]);
    assert KEY in RunFresh(BLOCK[1], c.parent).readset;
  }

  /** The fallback is not serially equivalent: for this block, after ten rounds under any interleavings
      the condition for a serial pass fails at its first step, the pass leaves a task that is not serial,
      and the mark that the serial execution sets is missing. */
  lemma FallbackIsNotSerial(run: seq<Round>, tr: seq<Config>, final: State)
    requires ParallelRun(BLOCK, map[], run) && |run| == 10
    requires var a := RunEnd(BLOCK, map[], run);
             SyncTrace(BLOCK, FirstNonValidated(a.c.tasks), tr) && tr[0] == a.c
    requires FlushedAll(tr[|tr| - 1].table, tr[|tr| - 1].parent, final)
    ensures |tr| > 1 && |tr[0].tasks| == |BLOCK| && !StepStands(BLOCK, BeforeStep(tr, 0), 1)
    ensures |tr[|tr| - 1].tasks| == |BLOCK| && !EndedPrefix(BLOCK, map[], tr[|tr| - 1], |BLOCK|)
    ensures Lookup(final, MARK) == 0 && Lookup(SerialState(BLOCK, map[], |BLOCK|), MARK) == 1
  {
    var a := RunEnd(BLOCK, map[], run);
    RunKeepsInv(BLOCK, map[], run);
    AlwaysFallsBack(run);
    SerialRunMarks();
    assert FirstNonValidated(a.c.tasks) == 1;
    StuckEndsInStuckStore(a);
    SecondStepFails(a, tr);
    PassIsSerialIff(BLOCK, map[], run, tr, final);
    SyncPassMarksNothing(a.c, tr, final);
  }
}
