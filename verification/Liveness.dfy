/** Blocks that never need the fallback. When transactions read what they write and never leave a key as
    they found it, as counters, nonces and paid fees do, no version is ever hidden from the flush: the
    shared state is the serial state of the flushed prefix, and the prefix grows every second round. */
module Liveness {
  import opened Storage
  import opened Programs
  import opened Table
  import opened Protocol
  import opened ExecutePhase
  import opened ValidatePhase
  import opened Rounds

  /** On state `s` the program changes the value of every key it writes, and has read that key. */
  ghost predicate UpdatesOn(p: Program, s: State) {
    var o := RunFresh(p, s);
    o.result.Some? ==> forall k :: k in o.writeset ==> k in o.readset && o.writeset[k] != Lookup(s, k)
  }

  ghost predicate Updating(p: Program) {
    forall s: State :: UpdatesOn(p, s)
  }

  /** Every transaction updates what it writes, and none is refused when its turn comes. */
  ghost predicate UpdatingBlock(block: seq<Program>, init: State) {
    forall j: nat :: j < |block| ==> Updating(block[j]) && SerialOutcome(block, init, j).result.Some?
  }

  /** Every version in the slot replaces, by another value, what its transaction read in the parent state. */
  ghost predicate Updates(parent: State, s: Slot) {
    forall k :: k in s.row ==>
      k in ReadsetOf(s) && ReadsetOf(s)[k] == [Lookup(parent, k)] && s.row[k].value != Lookup(parent, k)
  }

  ghost predicate AllUpdate(c: Config, parent: State, b: nat) {
    forall i: nat :: b <= i < |c.tasks| && Checkable(c.tasks[i]) ==> Updates(parent, At(c.table, i))
  }

  /** No version at or above `hi` that is no estimate covers one in the window [lo, hi). */
  ghost predicate NoneHidden(t: Table, lo: nat, hi: nat) {
    forall m: nat, h: nat, k :: lo <= m < hi <= h && k in At(t, m).row && k in At(t, h).row ==> At(t, h).row[k].estimate
  }

  ghost predicate LiveInv(block: seq<Program>, init: State, a: LoopState) {
    LoopInv(block, init, a) && SameState(a.c.parent, SerialState(block, init, a.flushedTo)) &&
    AllUpdate(a.c, a.c.parent, a.flushedTo) && NoneHidden(a.c.table, a.flushedTo, FirstNonValidated(a.c.tasks))
  }

  lemma LiveStart(block: seq<Program>, init: State)
    ensures LiveInv(block, init, InitialLoop(block, init))
  {
    LoopStartInv(block, init);
  }

  /** A flush whose window starts below the part that is hidden from nobody writes, below that part, only
      what the state holds already. */
  lemma FlushFollowsTop(t: Table, lo: nat, mid: nat, hi: nat, p: State, q: State, k: StorageKey)
    requires Flushed(t, lo, hi, p, q) && lo <= mid <= hi && NoneHidden(t, mid, hi)
    requires forall m: nat :: m < hi ==> NoEstimates(At(t, m).row)
    ensures var m := Scan(t, hi, k);
            match m
            case None => Lookup(q, k) == Lookup(p, k)
            case Some(m) =>
              Lookup(q, k) == At(t, m).row[k].value || (m < mid && Lookup(q, k) == Lookup(p, k))
  {
    var m := Scan(t, hi, k);
    ScanIsNearest(t, hi, k);
    assert FlushedKey(t, lo, hi, k, Lookup(p, k), Lookup(q, k));
    if m.Some? && mid <= m.value {
      assert Newest(t, k, m.value);
    } else {
      FlushIsConfined(t, lo, hi, p, q, k);
    }
  }

  lemma ScanBelowWindow(t: Table, lo: nat, hi: nat, k: StorageKey)
    requires lo <= hi && (Scan(t, hi, k).Some? ==> Scan(t, hi, k).value < lo)
    ensures Scan(t, lo, k) == Scan(t, hi, k)
  {
    ScanIsNearest(t, lo, k);
    ScanIsNearest(t, hi, k);
  }

  /** With nothing hidden in [mid, hi), a flush takes the serial state of `mid` to that of `hi`. */
  lemma FlushIsSerialAt(block: seq<Program>, init: State, c: Config, lo: nat, mid: nat, hi: nat, q: State,
                        k: StorageKey)
    requires lo <= mid <= hi <= |block| == |c.tasks| && RanPrefix(block, init, c, hi)
    requires SameState(c.parent, SerialState(block, init, mid))
    requires Flushed(c.table, lo, hi, c.parent, q) && NoneHidden(c.table, mid, hi)
    ensures Lookup(q, k) == Lookup(SerialState(block, init, hi), k)
  {
    hide NoneHidden, Flushed, RanSerially, RanOn;
    forall m: nat | m < hi ensures NoEstimates(At(c.table, m).row) {
      assert RanSerially(block, init, c, m);
      RanHasNoEstimates(block, init, c, m);
    }
    FlushFollowsTop(c.table, lo, mid, hi, c.parent, q, k);
    RanIsEnded(block, init, c, hi);
    ScanIsSerial(block, init, c, hi, k);
    var m := Scan(c.table, hi, k);
    if m.None? || m.value < mid {
      assert RanPrefix(block, init, c, mid);
      RanIsEnded(block, init, c, mid);
      ScanIsSerial(block, init, c, mid, k);
      ScanBelowWindow(c.table, mid, hi, k);
    }
  }

  lemma RanHasNoEstimates(block: seq<Program>, init: State, c: Config, m: nat)
    requires m < |block| == |c.tasks| && RanSerially(block, init, c, m)
    ensures NoEstimates(At(c.table, m).row)
  {
  }

  /** A flush leaves alone the keys that the tasks beyond its window have versions of. */
  lemma FlushKeepsUpdates(a: LoopState, q: State, lo: nat, hi: nat, i: nat)
    requires Flushed(a.c.table, lo, hi, a.c.parent, q) && i >= hi
    requires Updates(a.c.parent, At(a.c.table, i)) && NoEstimates(At(a.c.table, i).row)
    ensures Updates(q, At(a.c.table, i))
  {
    forall k | k in At(a.c.table, i).row ensures Lookup(q, k) == Lookup(a.c.parent, k) {
      assert FlushedKey(a.c.table, lo, hi, k, Lookup(a.c.parent, k), Lookup(q, k));
    }
  }

  lemma FlushLive(block: seq<Program>, init: State, a: LoopState, f: LoopState)
    requires LiveInv(block, init, a) && FlushStep(a, f)
    ensures SameState(f.c.parent, SerialState(block, init, FirstNonValidated(a.c.tasks)))
    ensures AllUpdate(f.c, f.c.parent, FirstNonValidated(a.c.tasks))
  {
    var start := FirstNonValidated(a.c.tasks);
    if start > a.flushedTo {
      forall k ensures Lookup(f.c.parent, k) == Lookup(SerialState(block, init, start), k) {
        FlushIsSerialAt(block, init, a.c, a.flushedTo, a.flushedTo, start, f.c.parent, k);
      }
      forall i: nat | start <= i < |a.c.tasks| && Checkable(a.c.tasks[i])
        ensures Updates(f.c.parent, At(f.c.table, i))
      {
        assert TaskOk(block[i], i, a.c.tasks[i], At(a.c.table, i));
        FlushKeepsUpdates(a, f.c.parent, a.flushedTo, start, i);
      }
    }
  }

  lemma ExecResultUpdates(p: Program, i: nat, parent: State, t0: Task, s0: Slot, t: Task, s: Slot)
    requires UpdatesOn(p, parent) && !Checkable(t0) && Checkable(t)
    requires ExecResult(RunFresh(p, parent), i, t0, s0, t, s)
    ensures Updates(parent, s)
  {
    RunRecords(p, parent, map[], map[]);
  }

  lemma ExecuteLive(block: seq<Program>, a: LoopState, f: LoopState, e: Config, start: nat)
    requires AllUpdate(f.c, f.c.parent, start) && f.c.tasks == a.c.tasks && Classified(a.c, a.scheduled)
    requires forall i: nat :: i < |block| ==> Updating(block[i])
    requires ExecPhase(block, f.c, ScheduledSet(a.scheduled), e)
    ensures AllUpdate(e, e.parent, start)
  {
    hide UpdatesOn, Updates, ExecResult;
    ScheduledIsPending(a);
    forall i: nat | start <= i < |e.tasks| && Checkable(e.tasks[i]) ensures Updates(e.parent, At(e.table, i)) {
      if i in ScheduledSet(a.scheduled) {
        assert Updating(block[i]) && UpdatesOn(block[i], f.c.parent);
        ExecResultUpdates(block[i], i, f.c.parent, f.c.tasks[i], At(f.c.table, i), e.tasks[i], At(e.table, i));
      }
    }
  }

  /** A read of the parent value does not stand over versions that all hold something else. */
  lemma StaleReadFails(t: Table, parent: State, m: nat, h: nat, k: StorageKey)
    requires m < h && k in At(t, m).row
    requires forall n: nat :: m <= n < h && k in At(t, n).row ==>
               At(t, n).row[k].estimate || At(t, n).row[k].value != Lookup(parent, k)
    ensures !KeyStands(t, parent, h, k, [Lookup(parent, k)])
  {
    ScanIsNearest(t, h, k);
  }

  lemma VersionsDiffer(block: seq<Program>, e: Config, n: nat, k: StorageKey)
    requires n < |block| == |e.tasks| && TaskOk(block[n], n, e.tasks[n], At(e.table, n)) && k in At(e.table, n).row
    requires Checkable(e.tasks[n]) ==> Updates(e.parent, At(e.table, n))
    ensures At(e.table, n).row[k].estimate || At(e.table, n).row[k].value != Lookup(e.parent, k)
  {
  }

  /** When a validation phase ends, a validated task shares no written key with any version, final or
      estimate, that was below it when the phase began. */
  lemma ValidatedIsApart(block: seq<Program>, e: Config, start: nat, c: Config, emitted: seq<nat>, m: nat, h: nat,
                         k: StorageKey)
    requires AllTasksOk(block, e) && start == FirstNonValidated(e.tasks) && AllUpdate(e, e.parent, start)
    requires ValPhase(e, start, c, emitted) && start <= m < h < |block| && c.tasks[h].status.Validated?
    ensures k !in At(e.table, m).row || k !in At(e.table, h).row
  {
    hide Updates, TaskOk, Demoted, KeyStands;
    assert ValResult(e.tasks[h], At(e.table, h), c.tasks[h], At(c.table, h));
    if k in At(e.table, m).row && k in At(e.table, h).row {
      forall n: nat | m <= n < h && k in At(e.table, n).row
        ensures At(e.table, n).row[k].estimate || At(e.table, n).row[k].value != Lookup(e.parent, k)
      {
        assert TaskOk(block[n], n, e.tasks[n], At(e.table, n));
        VersionsDiffer(block, e, n, k);
      }
      StaleReadFails(e.table, e.parent, m, h, k);
      UpdateHasRead(e, h, k);
    }
  }

  /** A validated task cannot have passed its check over a version that the new prefix still has. */
  lemma NoneHiddenAt(block: seq<Program>, e: Config, start: nat, c: Config, emitted: seq<nat>, m: nat, h: nat,
                     k: StorageKey)
    requires AllTasksOk(block, e) && start == FirstNonValidated(e.tasks) && AllUpdate(e, e.parent, start)
    requires ValPhase(e, start, c, emitted) && h < |e.tasks| && c.tasks[h].status.Validated?
    requires start <= m < FirstNonValidated(c.tasks) <= h
    ensures k !in At(c.table, m).row || k !in At(c.table, h).row
  {
    assert ValResult(e.tasks[h], At(e.table, h), c.tasks[h], At(c.table, h));
    assert ValResult(e.tasks[m], At(e.table, m), c.tasks[m], At(c.table, m));
    ValidatedIsApart(block, e, start, c, emitted, m, h, k);
  }

  lemma UpdateHasRead(e: Config, h: nat, k: StorageKey)
    requires Updates(e.parent, At(e.table, h)) && k in At(e.table, h).row
    ensures k in ReadsetOf(At(e.table, h)) && ReadsetOf(At(e.table, h))[k] == [Lookup(e.parent, k)]
  {
  }

  lemma ValidateLive(block: seq<Program>, e: Config, start: nat, c: Config, emitted: seq<nat>)
    requires AllTasksOk(block, e) && start == FirstNonValidated(e.tasks) && AllUpdate(e, e.parent, start)
    requires ValPhase(e, start, c, emitted) && AllTasksOk(block, c) && NoStrays(c)
    ensures AllUpdate(c, c.parent, start) && NoneHidden(c.table, start, FirstNonValidated(c.tasks))
  {
    hide Updates, Demoted, ReadsetStands, RanOn;
    forall i: nat | start <= i < |c.tasks| && Checkable(c.tasks[i]) ensures Updates(c.parent, At(c.table, i)) {
      assert ValResult(e.tasks[i], At(e.table, i), c.tasks[i], At(c.table, i));
    }
    forall m: nat, h: nat, k |
      start <= m < FirstNonValidated(c.tasks) <= h && k in At(c.table, m).row && k in At(c.table, h).row
      ensures At(c.table, h).row[k].estimate
    {
      assert h < |block|;
      assert TaskOk(block[h], h, c.tasks[h], At(c.table, h));
      if c.tasks[h].status.Validated? {
        NoneHiddenAt(block, e, start, c, emitted, m, h, k);
      }
    }
  }

  lemma LoopTasks(block: seq<Program>, init: State, a: LoopState)
    requires LoopInv(block, init, a)
    ensures AllTasksOk(block, a.c) && NoStrays(a.c) && Classified(a.c, a.scheduled)
  {
  }

  /** A round keeps the shared state serial. */
  lemma RoundKeepsLive(block: seq<Program>, init: State, a: LoopState, f: LoopState, e: Config, b: LoopState)
    requires UpdatingBlock(block, init) && LiveInv(block, init, a) && RoundEffect(block, a, f, e, b)
    ensures LiveInv(block, init, b)
  {
    hide LoopInv, AllUpdate, NoneHidden, UpdatesOn, ExecPhase, ValPhase, AllTasksOk, NoStrays, Contained;
    FlushLive(block, init, a, f);
    FlushKeepsContained(block, init, a, f);
    LoopTasks(block, init, a);
    ExecuteKeeps(block, init, a, f, e);
    ExecuteLive(block, a, f, e, FirstNonValidated(a.c.tasks));
    RoundKeepsInv(block, init, a, f, e, b);
    LoopTasks(block, init, b);
    ValidateLive(block, e, FirstNonValidated(e.tasks), b.c, b.scheduled);
    assert b.c.parent == e.parent by {
      ParentOfPhase(e, FirstNonValidated(e.tasks), b.c, b.scheduled);
    }
  }

  lemma ParentOfPhase(e: Config, start: nat, c: Config, emitted: seq<nat>)
    requires ValPhase(e, start, c, emitted)
    ensures c.parent == e.parent
  {
  }

  /** Twice the length of the validated prefix, plus one if the next task is ready to run. */
  function Advance(a: LoopState): nat {
    var start := FirstNonValidated(a.c.tasks);
    2 * start + if start in a.scheduled then 1 else 0
  }

  /** A program runs on the parent state as it does on the serial state, when these are the same. */
  lemma RunsAsSerial(block: seq<Program>, init: State, parent: State, j: nat)
    requires j < |block| && SameState(parent, SerialState(block, init, j))
    ensures RunFresh(block[j], parent) == SerialOutcome(block, init, j)
    ensures Agrees(SerialState(block, init, j), RunFresh(block[j], parent).readset)
  {
    RunRecords(block[j], parent, map[], map[]);
    Replay(block[j], parent, SerialState(block, init, j), map[], map[]);
  }

  lemma ReadyIsValidated(block: seq<Program>, init: State, a: LoopState, f: LoopState, e: Config, b: LoopState)
    requires UpdatingBlock(block, init) && LiveInv(block, init, a) && RoundEffect(block, a, f, e, b)
    requires FirstNonValidated(a.c.tasks) in a.scheduled
    ensures FirstNonValidated(b.c.tasks) > FirstNonValidated(a.c.tasks)
  {
    hide UpdatesOn, ExecPhase, ValPhase, FlushStep, NoneHidden, AllUpdate;
    FlushLive(block, init, a, f);
    assert LoopInv(block, init, a);
    RunsAsSerial(block, init, f.c.parent, FirstNonValidated(a.c.tasks));
    ProgressIffParentIsCurrent(block, init, a, f, e, b);
    RoundKeepsInv(block, init, a, f, e, b);
  }

  lemma WaitingIsReadied(block: seq<Program>, init: State, a: LoopState, f: LoopState, e: Config, b: LoopState)
    requires LoopInv(block, init, a) && RoundEffect(block, a, f, e, b)
    requires FirstNonValidated(a.c.tasks) !in a.scheduled
    ensures FirstNonValidated(b.c.tasks) == FirstNonValidated(a.c.tasks) && FirstNonValidated(a.c.tasks) in b.scheduled
  {
    hide LoopInv;
    LoopTasks(block, init, a);
    RoundKeepsInv(block, init, a, f, e, b);
    ScheduledIsPending(a);
    ExecuteKeeps(block, init, a, f, e);
    var start := FirstNonValidated(a.c.tasks);
    assert a.c.tasks[start].status.Waiting? && e.tasks[start] == a.c.tasks[start];
    assert ValResult(e.tasks[start], At(e.table, start), b.c.tasks[start], At(b.c.table, start));
    assert b.c.tasks[start].status.Pending?;
  }

  /** Every round that begins with a task left to validate advances: a ready first task is validated, and
      a waiting one is made ready. */
  lemma RoundAdvances(block: seq<Program>, init: State, a: LoopState, f: LoopState, e: Config, b: LoopState)
    requires UpdatingBlock(block, init) && LiveInv(block, init, a) && RoundEffect(block, a, f, e, b)
    ensures Advance(b) > Advance(a)
  {
    hide LoopInv, RoundEffect, NoneHidden, AllUpdate;
    if FirstNonValidated(a.c.tasks) in a.scheduled {
      ReadyIsValidated(block, init, a, f, e, b);
    } else {
      WaitingIsReadied(block, init, a, f, e, b);
    }
  }

  lemma {:induction false} RunAdvances(block: seq<Program>, init: State, run: seq<Round>)
    requires UpdatingBlock(block, init) && ParallelRun(block, init, run)
    ensures LiveInv(block, init, RunEnd(block, init, run))
    ensures |block| > 0 ==> Advance(RunEnd(block, init, run)) > |run|
    decreases |run|
  {
    if run == [] {
      LiveStart(block, init);
      assert |block| > 0 ==> InitialLoop(block, init).scheduled[0] == 0;
    } else {
      RunAdvances(block, init, Earlier(run));
      var r := Last(run);
      RoundHasEffect(block, init, r);
      RoundKeepsLive(block, init, r.before, r.flushed, r.exec[|r.exec| - 1].c, r.after);
      RoundAdvances(block, init, r.before, r.flushed, r.exec[|r.exec| - 1].c, r.after);
    }
  }

  /** An example: a transaction that turns a flag over is updating. */
  lemma ToggleIsUpdating(k: StorageKey, r: Response)
    ensures Updating(Read(k, map[0 := Write(k, 1, Done(r))], Write(k, 0, Done(r))))
  {
    var p := Read(k, map[0 := Write(k, 1, Done(r))], Write(k, 0, Done(r)));
    forall s: State ensures UpdatesOn(p, s) {
      var v: Hash := if Lookup(s, k) == 0 then 1 else 0;
      var readset: ReadSet := map[k := [Lookup(s, k)]];
      assert Recorded(s, map[], map[], k) == readset;
      assert AfterRead(p, Lookup(s, k)) == Write(k, v, Done(r));
      var writeset: WriteSet := map[];
      assert writeset[k := v] == map[k := v];
      assert Run(Done(r), s, readset, map[k := v]) == Outcome(readset, map[k := v], Some(r));
      assert Run(Write(k, v, Done(r)), s, readset, writeset) == Outcome(readset, map[k := v], Some(r));
      assert RunFresh(p, s) == Run(AfterRead(p, Lookup(s, k)), s, readset, writeset);
    }
  }

  /** For a block of updating transactions, under every interleaving: the shared state is the serial state
      of the flushed prefix, and n transactions are validated after at most 2n - 1 rounds, so a block of
      at most five never falls back. */
  lemma UpdatingBlocksAdvance(block: seq<Program>, init: State, run: seq<Round>, n: nat)
    requires UpdatingBlock(block, init) && ParallelRun(block, init, run)
    requires n <= |block| && |run| >= 2 * n - 1
    ensures var a := RunEnd(block, init, run);
            n <= FirstNonValidated(a.c.tasks) && a.flushedTo <= |block| &&
            SameState(a.c.parent, SerialState(block, init, a.flushedTo))
  {
    RunAdvances(block, init, run);
  }
}
