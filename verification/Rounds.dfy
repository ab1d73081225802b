/** The round loop of ProcessAll over whole runs: whatever the interleavings inside the phases, the
    validated prefix is the serial execution, and a run that ends with every task validated has
    computed exactly what running the transactions one by one computes. */
module Rounds {
  import opened Storage
  import opened Programs
  import opened Table
  import opened Protocol
  import opened ExecutePhase
  import opened ValidatePhase

  const MAXIMUM_ITERATIONS := 10

  /** The loop's variables: all tasks and the store, the tasks to execute, lastStoreIdx, iterations. */
  datatype LoopState = LoopState(c: Config, scheduled: seq<nat>, flushedTo: nat, iterations: nat)

  function InitialConfig(n: nat, init: State): Config {
    Config(seq(n, i => NEW_TASK), map[], init)
  }

  function InitialLoop(block: seq<Program>, init: State): LoopState {
    LoopState(InitialConfig(|block|, init), seq(|block|, i => i), 0, 0)
  }

  /** The state after the flush of a round: the parent state has changed, nothing else. */
  ghost predicate FlushStep(a: LoopState, f: LoopState) {
    var start := FirstNonValidated(a.c.tasks);
    f == a.(c := a.c.(parent := f.c.parent), flushedTo := f.flushedTo) &&
    if start > a.flushedTo
    then f.flushedTo == start && Flushed(a.c.table, a.flushedTo, start, a.c.parent, f.c.parent)
    else f.flushedTo == a.flushedTo && f.c.parent == a.c.parent
  }

  function ScheduledSet(scheduled: seq<nat>): set<nat> {
    set i | i in scheduled
  }

  /** The effect of one round on the loop's variables, through its three barriers. */
  ghost predicate RoundEffect(block: seq<Program>, a: LoopState, f: LoopState, e: Config, b: LoopState) {
    FirstNonValidated(a.c.tasks) < |a.c.tasks| && a.iterations < MAXIMUM_ITERATIONS && FlushStep(a, f) &&
    ExecPhase(block, f.c, ScheduledSet(a.scheduled), e) &&
    b.flushedTo == f.flushedTo && b.iterations == a.iterations + 1 &&
    if FirstNonValidated(e.tasks) == |e.tasks| then b.c == e && b.scheduled == []
    else ValPhase(e, FirstNonValidated(e.tasks), b.c, b.scheduled)
  }

  /** Task `j` holds exactly the serial readset, writeset and result. */
  ghost predicate RanSerially(block: seq<Program>, init: State, c: Config, j: nat)
    requires j < |block| == |c.tasks|
  {
    RanOn(block[j], SerialState(block, init, j), c.tasks[j], At(c.table, j))
  }

  ghost predicate RanPrefix(block: seq<Program>, init: State, c: Config, s: nat)
    requires s <= |block| == |c.tasks|
  {
    forall j: nat :: j < s ==> RanSerially(block, init, c, j)
  }

  /** The serial execution refuses task `j`, and so it has no response, no readset and no version that
      counts. */
  ghost predicate RefusedSerially(block: seq<Program>, init: State, c: Config, j: nat)
    requires j < |block| == |c.tasks|
  {
    SerialResult(block, init, j).None? && c.tasks[j].response.None? &&
    At(c.table, j).readset.None? && OnlyEstimates(At(c.table, j).row)
  }

  /** Task `j` has ended as in the serial execution: with the same run, or refused. */
  ghost predicate EndsSerially(block: seq<Program>, init: State, c: Config, j: nat)
    requires j < |block| == |c.tasks|
  {
    RanSerially(block, init, c, j) || RefusedSerially(block, init, c, j)
  }

  ghost predicate EndedPrefix(block: seq<Program>, init: State, c: Config, s: nat)
    requires s <= |block| == |c.tasks|
  {
    forall j: nat :: j < s ==> EndsSerially(block, init, c, j)
  }

  lemma RanIsEnded(block: seq<Program>, init: State, c: Config, s: nat)
    requires s <= |block| == |c.tasks| && RanPrefix(block, init, c, s)
    ensures EndedPrefix(block, init, c, s)
  {
    forall j: nat | j < s ensures EndsSerially(block, init, c, j) {
      assert RanSerially(block, init, c, j);
    }
  }

  ghost predicate SerialTask(block: seq<Program>, init: State, c: Config, j: nat)
    requires j < |block| == |c.tasks|
  {
    c.tasks[j].status.Validated? && RanSerially(block, init, c, j)
  }

  ghost predicate SerialPrefix(block: seq<Program>, init: State, c: Config, s: nat)
    requires s <= |block| == |c.tasks|
  {
    RanPrefix(block, init, c, s) && forall j: nat :: j < s ==> c.tasks[j].status.Validated?
  }

  /** Every key of the shared state holds its initial value, or the value that some task below `b`
      writes in the serial execution. */
  ghost predicate Contained(block: seq<Program>, init: State, parent: State, b: nat)
    requires b <= |block|
  {
    forall k :: Lookup(parent, k) == Lookup(init, k) || WrittenBelow(block, init, b, k, Lookup(parent, k))
  }

  ghost predicate WrittenBelow(block: seq<Program>, init: State, b: nat, k: StorageKey, v: Hash)
    requires b <= |block|
  {
    exists i: nat :: i < b && Writes(block, init, i, k) && SerialOutcome(block, init, i).writeset[k] == v
  }

  /** In the serial execution task `i` is not refused, and writes `k`. */
  ghost predicate Writes(block: seq<Program>, init: State, i: nat, k: StorageKey)
    requires i < |block|
  {
    SerialOutcome(block, init, i).result.Some? && k in SerialOutcome(block, init, i).writeset
  }

  /** Each task has been run Incarnation times before its next run, and Incarnation + 1 times otherwise. */
  ghost predicate Counted(c: Config, rounds: nat) {
    forall i :: 0 <= i < |c.tasks| ==>
      c.tasks[i].incarnation <= rounds &&
      c.tasks[i].runs == c.tasks[i].incarnation + if c.tasks[i].status.Pending? then 0 else 1
  }

  /** No transaction beyond the block has versions. */
  ghost predicate NoStrays(c: Config) {
    forall i: nat :: i >= |c.tasks| ==> At(c.table, i).row == map[]
  }

  ghost predicate LoopInv(block: seq<Program>, init: State, a: LoopState) {
    AllTasksOk(block, a.c) && NoStrays(a.c) && Classified(a.c, a.scheduled) && a.iterations <= MAXIMUM_ITERATIONS &&
    Counted(a.c, a.iterations) && a.flushedTo <= FirstNonValidated(a.c.tasks) &&
    SerialPrefix(block, init, a.c, FirstNonValidated(a.c.tasks)) &&
    Contained(block, init, a.c.parent, a.flushedTo)
  }

  lemma LoopStartInv(block: seq<Program>, init: State)
    ensures LoopInv(block, init, InitialLoop(block, init))
  {
    var a := InitialLoop(block, init);
    assert FirstNonValidated(a.c.tasks) == 0;
    assert forall i: nat :: i in a.scheduled <==> i < |block| by {
      forall i: nat | i < |block| ensures i in a.scheduled {
        assert a.scheduled[i] == i;
      }
    }
  }

  /* The store of a serial prefix resolves reads to the serial state. */

  /** Above tasks that ended serially, the highest version that is no estimate holds the serial value, and
      a key without one has its initial value. */
  lemma {:induction false} TopIsSerial(block: seq<Program>, init: State, c: Config, j: nat, k: StorageKey)
    requires j <= |block| == |c.tasks| && EndedPrefix(block, init, c, j)
    ensures forall m: nat :: Top(c.table, j, k, m) ==>
              At(c.table, m).row[k].value == Lookup(SerialState(block, init, j), k)
    ensures NoTop(c.table, j, k) ==>
              Lookup(SerialState(block, init, j), k) == Lookup(init, k) &&
              forall i: nat :: i < j ==> !Writes(block, init, i, k)
  {
    if j > 0 {
      assert EndsSerially(block, init, c, j - 1);
      SerialStep(block, init, j - 1);
      TopIsSerial(block, init, c, j - 1, k);
      forall m: nat | Top(c.table, j, k, m)
        ensures At(c.table, m).row[k].value == Lookup(SerialState(block, init, j), k)
      {
        if m < j - 1 {
          assert Top(c.table, j - 1, k, m);
        }
      }
    }
  }

  /** What a lookup right after such a prefix finds: the serial value, unless it meets an estimate, which it
      cannot after finished runs; and nothing only where no lower transaction writes the key. */
  lemma ScanIsSerial(block: seq<Program>, init: State, c: Config, j: nat, k: StorageKey)
    requires j <= |block| == |c.tasks| && EndedPrefix(block, init, c, j)
    ensures match Scan(c.table, j, k)
            case None =>
              Lookup(SerialState(block, init, j), k) == Lookup(init, k) &&
              forall i: nat :: i < j ==> !Writes(block, init, i, k)
            case Some(m) =>
              if At(c.table, m).row[k].estimate then !RanPrefix(block, init, c, j)
              else At(c.table, m).row[k].value == Lookup(SerialState(block, init, j), k)
  {
    TopIsSerial(block, init, c, j, k);
    ScanIsNearest(c.table, j, k);
    var m := Scan(c.table, j, k);
    if m.Some? {
      assert At(c.table, m.value).row[k].estimate ==> !RanSerially(block, init, c, m.value);
      assert !At(c.table, m.value).row[k].estimate ==> Top(c.table, j, k, m.value);
    }
  }

  /** A read by the task right after such a prefix resolves to the serial value, if no estimate is nearer. */
  lemma ResolvedIsSerial(block: seq<Program>, init: State, c: Config, b: nat, j: nat, k: StorageKey)
    requires b <= j <= |block| == |c.tasks| && EndedPrefix(block, init, c, j)
    requires Contained(block, init, c.parent, b)
    ensures BlockedByEstimate(c.table, j, k) ==> !RanPrefix(block, init, c, j)
    ensures !BlockedByEstimate(c.table, j, k) ==>
              Resolved(c.table, c.parent, j, k) == Lookup(SerialState(block, init, j), k)
  {
    ScanIsSerial(block, init, c, j, k);
  }

  /** On top of tasks that ended serially, an executed or validated task is serial, and nothing blocks its
      reads, if and only if its readset stands. */
  lemma StandingIsSerial(block: seq<Program>, init: State, c: Config, b: nat, j: nat)
    requires b <= j < |block| == |c.tasks| && EndedPrefix(block, init, c, j)
    requires Contained(block, init, c.parent, b)
    requires TaskOk(block[j], j, c.tasks[j], At(c.table, j)) && Checkable(c.tasks[j])
    ensures RanSerially(block, init, c, j) && Unblocked(c.table, j, ReadsetOf(At(c.table, j))) <==>
            ReadsetStands(c.table, c.parent, j, ReadsetOf(At(c.table, j)))
  {
    var q: State :| RanOn(block[j], q, c.tasks[j], At(c.table, j));
    var s, readset := SerialState(block, init, j), ReadsetOf(At(c.table, j));
    RunRecords(block[j], q, map[], map[]);
    forall k | k in readset
      ensures KeyStands(c.table, c.parent, j, k, readset[k]) <==>
              readset[k] == [Lookup(s, k)] && !BlockedByEstimate(c.table, j, k)
    {
      ResolvedIsSerial(block, init, c, b, j, k);
    }
    if Agrees(s, readset) {
      Replay(block[j], q, s, map[], map[]);
    } else {
      RunRecords(block[j], s, map[], map[]);
    }
  }

  lemma {:induction false} PrefixGrows(block: seq<Program>, init: State, c: Config, b: nat, s: nat, j: nat)
    requires b <= s <= j <= |block| == |c.tasks| && SerialPrefix(block, init, c, s)
    requires Contained(block, init, c.parent, b) && AllTasksOk(block, c)
    requires forall i: nat :: i < j ==> c.tasks[i].status.Validated?
    requires forall i: nat :: s <= i < j ==> ReadsetStands(c.table, c.parent, i, ReadsetOf(At(c.table, i)))
    ensures SerialPrefix(block, init, c, j)
  {
    if s < j {
      PrefixGrows(block, init, c, b, s, j - 1);
      assert TaskOk(block[j - 1], j - 1, c.tasks[j - 1], At(c.table, j - 1));
      RanIsEnded(block, init, c, j - 1);
      StandingIsSerial(block, init, c, b, j - 1);
    }
  }

  /** A prefix that is left alone stays serial. */
  lemma PrefixCarries(block: seq<Program>, init: State, c: Config, d: Config, s: nat)
    requires s <= |block| == |c.tasks| == |d.tasks| && SerialPrefix(block, init, c, s)
    requires forall j: nat :: j < s ==> d.tasks[j] == c.tasks[j] && At(d.table, j) == At(c.table, j)
    ensures SerialPrefix(block, init, d, s)
  {
    forall j: nat | j < s ensures RanSerially(block, init, d, j) {
      assert RanSerially(block, init, c, j);
    }
  }

  /* One round, barrier by barrier. */

  /** A flush whose window ends at the end of such a prefix writes only values of that prefix. */
  lemma FlushIsContained(block: seq<Program>, init: State, c: Config, lo: nat, hi: nat, b: nat, q: State)
    requires b <= hi <= |block| == |c.tasks| && EndedPrefix(block, init, c, hi)
    requires Contained(block, init, c.parent, b) && Flushed(c.table, lo, hi, c.parent, q)
    ensures Contained(block, init, q, hi)
  {
    var t := c.table;
    ContainedGrows(block, init, c.parent, b, hi);
    forall k ensures Lookup(q, k) == Lookup(init, k) || WrittenBelow(block, init, hi, k, Lookup(q, k)) {
      if Lookup(q, k) != Lookup(c.parent, k) {
        FlushIsConfined(t, lo, hi, c.parent, q, k);
        var h: nat :| lo <= h < hi && Newest(t, k, h) && At(t, h).row[k].value == Lookup(q, k);
        assert EndsSerially(block, init, c, h);
        assert Writes(block, init, h, k);
      }
    }
  }

  /** The flush at the start of a round writes only values of the serial prefix. */
  lemma FlushKeepsContained(block: seq<Program>, init: State, a: LoopState, f: LoopState)
    requires LoopInv(block, init, a) && FlushStep(a, f)
    ensures f.flushedTo == FirstNonValidated(a.c.tasks) && Contained(block, init, f.c.parent, f.flushedTo)
  {
    var start := FirstNonValidated(a.c.tasks);
    if start > a.flushedTo {
      RanIsEnded(block, init, a.c, start);
      FlushIsContained(block, init, a.c, a.flushedTo, start, a.flushedTo, f.c.parent);
    }
  }

  lemma ScheduledIsPending(a: LoopState)
    requires Classified(a.c, a.scheduled)
    ensures forall i: nat :: i in ScheduledSet(a.scheduled) <==> i < |a.c.tasks| && a.c.tasks[i].status.Pending?
  {
  }

  /** After executeAll every task satisfies the state machine, has been run exactly Incarnation + 1
      times, and the validated prefix is as it was. */
  lemma ExecuteKeeps(block: seq<Program>, init: State, a: LoopState, f: LoopState, e: Config)
    requires LoopInv(block, init, a) && FlushStep(a, f) && ExecPhase(block, f.c, ScheduledSet(a.scheduled), e)
    requires FirstNonValidated(a.c.tasks) < |a.c.tasks|
    ensures AllTasksOk(block, e) && e.parent == f.c.parent
    ensures FirstNonValidated(e.tasks) == FirstNonValidated(a.c.tasks)
    ensures SerialPrefix(block, init, e, FirstNonValidated(a.c.tasks))
    ensures forall i: nat :: i < |block| ==>
              e.tasks[i].incarnation == a.c.tasks[i].incarnation && e.tasks[i].runs == e.tasks[i].incarnation + 1
    ensures forall j: nat :: j < FirstNonValidated(a.c.tasks) ==>
              e.tasks[j] == a.c.tasks[j] && At(e.table, j) == At(a.c.table, j)
  {
    ScheduledIsPending(a);
    var start, scheduled := FirstNonValidated(a.c.tasks), ScheduledSet(a.scheduled);
    forall i: nat | i < |block|
      ensures TaskOk(block[i], i, e.tasks[i], At(e.table, i))
      ensures e.tasks[i].status.Validated? <==> a.c.tasks[i].status.Validated?
      ensures e.tasks[i].incarnation == a.c.tasks[i].incarnation && e.tasks[i].runs == e.tasks[i].incarnation + 1
    {
      assert TaskOk(block[i], i, a.c.tasks[i], At(a.c.table, i));
      if i in scheduled {
        ExecResultOk(block[i], i, f.c.parent, a.c.tasks[i], At(a.c.table, i), e.tasks[i], At(e.table, i));
      }
    }
    PrefixCarries(block, init, a.c, e, start);
  }

  lemma ExecResultOk(p: Program, i: nat, parent: State, t0: Task, s0: Slot, t: Task, s: Slot)
    requires TaskOk(p, i, t0, s0) && t0.status.Pending?
    requires ExecResult(RunFresh(p, parent), i, t0, s0, t, s)
    ensures TaskOk(p, i, t, s) && !t.status.Validated? && !t.status.Waiting?
    ensures t.incarnation == t0.incarnation && t.runs == t0.runs + 1
  {
    var o := RunFresh(p, parent);
    if o.result.Some? {
      var abort: Option<nat> :| (abort.Some? ==> abort.value < i && o.readset != map[]) &&
          Landed(o, t0, s0, t, s, abort);
      if abort.None? {
        assert RanOn(p, parent, t, s);
      }
    }
  }

  lemma ValResultOk(p: Program, i: nat, t0: Task, s0: Slot, t: Task, s: Slot)
    requires TaskOk(p, i, t0, s0) && ValResult(t0, s0, t, s) && Below(t.deps, i)
    ensures TaskOk(p, i, t, s)
  {
    if t.status.Validated? {
      var q: State :| RanOn(p, q, t0, s0);
      assert RanOn(p, q, t, s);
    }
  }

  /** After validateAll the prefix may have grown, never shrunk, and all of it is serial. */
  lemma ValidateKeeps(block: seq<Program>, init: State, e: Config, b: nat, c: Config, emitted: seq<nat>, rounds: nat)
    requires AllTasksOk(block, e) && FirstNonValidated(e.tasks) < |e.tasks|
    requires b <= FirstNonValidated(e.tasks)
    requires SerialPrefix(block, init, e, FirstNonValidated(e.tasks)) && Contained(block, init, e.parent, b)
    requires ValPhase(e, FirstNonValidated(e.tasks), c, emitted)
    requires forall i: nat :: i < |block| ==>
               e.tasks[i].incarnation <= rounds && e.tasks[i].runs == e.tasks[i].incarnation + 1
    ensures AllTasksOk(block, c) && Counted(c, rounds + 1)
    ensures FirstNonValidated(e.tasks) <= FirstNonValidated(c.tasks)
    ensures SerialPrefix(block, init, c, FirstNonValidated(c.tasks))
    ensures forall j: nat :: j < FirstNonValidated(e.tasks) ==>
              c.tasks[j] == e.tasks[j] && At(c.table, j) == At(e.table, j)
  {
    var start := FirstNonValidated(e.tasks);
    forall i: nat | i < |block| ensures TaskOk(block[i], i, c.tasks[i], At(c.table, i)) {
      assert TaskOk(block[i], i, e.tasks[i], At(e.table, i));
      if i >= start {
        ValResultOk(block[i], i, e.tasks[i], At(e.table, i), c.tasks[i], At(c.table, i));
      }
    }
    PrefixCarries(block, init, e, c, start);
    PrefixGrows(block, init, c, b, start, FirstNonValidated(c.tasks));
  }

  /** One round keeps the loop invariant; the validated prefix never shrinks and its entries never change. */
  lemma RoundKeepsInv(block: seq<Program>, init: State, a: LoopState, f: LoopState, e: Config, b: LoopState)
    requires LoopInv(block, init, a) && RoundEffect(block, a, f, e, b)
    ensures LoopInv(block, init, b)
    ensures FirstNonValidated(a.c.tasks) <= FirstNonValidated(b.c.tasks)
    ensures forall j: nat :: j < FirstNonValidated(a.c.tasks) ==>
              b.c.tasks[j] == a.c.tasks[j] && At(b.c.table, j) == At(a.c.table, j)
    ensures forall i: nat :: i < |block| ==> |e.tasks| == |block| && e.tasks[i].runs == e.tasks[i].incarnation + 1
  {
    FlushKeepsContained(block, init, a, f);
    ExecuteKeeps(block, init, a, f, e);
    ValidateKeeps(block, init, e, f.flushedTo, b.c, b.scheduled, a.iterations);
  }

  /* Progress. */

  /** The lowest task that is not validated cannot hit an estimate: below it all versions are final. */
  lemma FirstCannotAbort(block: seq<Program>, init: State, a: LoopState, f: LoopState, e: Config)
    requires LoopInv(block, init, a) && FlushStep(a, f) && ExecPhase(block, f.c, ScheduledSet(a.scheduled), e)
    requires FirstNonValidated(a.c.tasks) < |a.c.tasks|
    requires FirstNonValidated(a.c.tasks) in a.scheduled
    ensures var start := FirstNonValidated(a.c.tasks);
            var o := RunFresh(block[start], f.c.parent);
            if o.result.Some? then e.tasks[start].status.Executed? && ReadsetOf(At(e.table, start)) == o.readset
            else e.tasks[start].status.Pending?
  {
    ScheduledIsPending(a);
    var start, scheduled := FirstNonValidated(a.c.tasks), ScheduledSet(a.scheduled);
    forall j: nat | j < start ensures j !in scheduled && NoEstimates(At(f.c.table, j).row) {
      assert SerialTask(block, init, a.c, j);
    }
    assert ClearBelow(f.c, scheduled, start);
  }

  /** Right after a serial prefix, a readset of values of the parent state stands exactly if nothing blocks
      it and the parent state agrees with the serial state on every key of it. */
  lemma StandsIffParentIsCurrent(block: seq<Program>, init: State, e: Config, b: nat, j: nat, readset: ReadSet)
    requires b <= j < |block| == |e.tasks| && EndedPrefix(block, init, e, j)
    requires Contained(block, init, e.parent, b) && Agrees(e.parent, readset)
    ensures ReadsetStands(e.table, e.parent, j, readset) <==>
            Agrees(SerialState(block, init, j), readset) && Unblocked(e.table, j, readset)
  {
    forall k | k in readset
      ensures KeyStands(e.table, e.parent, j, k, readset[k]) <==>
              readset[k] == [Lookup(SerialState(block, init, j), k)] && !BlockedByEstimate(e.table, j, k)
    {
      ResolvedIsSerial(block, init, e, b, j, k);
    }
  }

  /** In one round, under every interleaving, the first task that is not validated, if it is scheduled,
      ends up validated if and only if its program is not refused on the parent state and the parent
      state agrees with the serial prefix on every key that the program reads there. */
  lemma ProgressIffParentIsCurrent(block: seq<Program>, init: State, a: LoopState, f: LoopState, e: Config,
                                   b: LoopState)
    requires LoopInv(block, init, a) && RoundEffect(block, a, f, e, b)
    requires FirstNonValidated(a.c.tasks) in a.scheduled
    ensures var start := FirstNonValidated(a.c.tasks);
            var o := RunFresh(block[start], f.c.parent);
            |b.c.tasks| == |block| &&
            (b.c.tasks[start].status.Validated? <==>
               o.result.Some? && Agrees(SerialState(block, init, start), o.readset))
  {
    FlushKeepsContained(block, init, a, f);
    ExecuteKeeps(block, init, a, f, e);
    FirstCannotAbort(block, init, a, f, e);
    var start := FirstNonValidated(a.c.tasks);
    var o := RunFresh(block[start], f.c.parent);
    RunRecords(block[start], f.c.parent, map[], map[]);
    RanIsEnded(block, init, e, start);
    StandsIffParentIsCurrent(block, init, e, f.flushedTo, start, o.readset);
    forall k ensures !BlockedByEstimate(e.table, start, k) {
      ResolvedIsSerial(block, init, e, f.flushedTo, start, k);
    }
  }

  /** If the first task that is not validated waits when a validation starts, it is released for rerun. */
  lemma WaitingFirstIsReleased(block: seq<Program>, base: Config, tr: seq<ValState>)
    requires FirstNonValidated(base.tasks) < |base.tasks| && AllTasksOk(block, base)
    requires base.tasks[FirstNonValidated(base.tasks)].status.Waiting?
    requires ValTrace(base, FirstNonValidated(base.tasks), tr)
    ensures var start, last := FirstNonValidated(base.tasks), tr[|tr| - 1];
            |last.c.tasks| == |base.tasks| && last.c.tasks[start].status.Pending? && start in last.emitted &&
            last.c.tasks[start].incarnation == base.tasks[start].incarnation + 1
  {
    ValidateAllOutcome(block, base, FirstNonValidated(base.tasks), tr);
  }

  /* Whole runs. */

  /** One round as it happens: a flush, a run of the execution phase, a run of the validation phase. */
  datatype Round = Round(before: LoopState, flushed: LoopState, exec: seq<ExecState>, val: seq<ValState>,
                         after: LoopState)

  ghost predicate Happens(block: seq<Program>, r: Round) {
    FirstNonValidated(r.before.c.tasks) < |r.before.c.tasks| && r.before.iterations < MAXIMUM_ITERATIONS &&
    FlushStep(r.before, r.flushed) &&
    ExecTrace(block, r.flushed.c, ScheduledSet(r.before.scheduled), r.exec) &&
    var e := r.exec[|r.exec| - 1].c;
    if FirstNonValidated(e.tasks) == |e.tasks|
    then r.after == LoopState(e, [], r.flushed.flushedTo, r.before.iterations + 1)
    else
      ValTrace(e, FirstNonValidated(e.tasks), r.val) &&
      r.after == LoopState(r.val[|r.val| - 1].c, r.val[|r.val| - 1].emitted, r.flushed.flushedTo,
                           r.before.iterations + 1)
  }

  /** At the start of a round exactly the keys whose highest version that is no estimate belongs to the newly
      validated part of the prefix are flushed, to that version; all others stay as they are. */
  lemma RoundFlushesWindow(block: seq<Program>, r: Round, k: StorageKey)
    requires Happens(block, r)
    ensures forall h: nat ::
              Newest(r.before.c.table, k, h) && r.before.flushedTo <= h < FirstNonValidated(r.before.c.tasks) ==>
              Lookup(r.flushed.c.parent, k) == At(r.before.c.table, h).row[k].value
    ensures (forall h: nat :: Newest(r.before.c.table, k, h) ==>
               h < r.before.flushedTo || h >= FirstNonValidated(r.before.c.tasks)) ==>
              Lookup(r.flushed.c.parent, k) == Lookup(r.before.c.parent, k)
    ensures r.flushed.c.tasks == r.before.c.tasks && r.flushed.c.table == r.before.c.table
    ensures r.before.flushedTo <= FirstNonValidated(r.before.c.tasks) ==>
              r.flushed.flushedTo == FirstNonValidated(r.before.c.tasks)
  {
    hide ExecTrace, ValTrace;
    var start := FirstNonValidated(r.before.c.tasks);
    if start > r.before.flushedTo {
      assert FlushedKey(r.before.c.table, r.before.flushedTo, start, k,
                        Lookup(r.before.c.parent, k), Lookup(r.flushed.c.parent, k));
    }
  }

  lemma RoundHasEffect(block: seq<Program>, init: State, r: Round)
    requires LoopInv(block, init, r.before) && Happens(block, r)
    ensures RoundEffect(block, r.before, r.flushed, r.exec[|r.exec| - 1].c, r.after)
  {
    var scheduled, e := ScheduledSet(r.before.scheduled), r.exec[|r.exec| - 1].c;
    forall i: nat | i in scheduled ensures i < |block| && Supported(At(r.flushed.c.table, i)) {
      assert TaskOk(block[i], i, r.before.c.tasks[i], At(r.before.c.table, i));
    }
    ExecuteAllOutcome(block, r.flushed.c, scheduled, r.exec);
    ExecuteKeeps(block, init, r.before, r.flushed, e);
    ValidateAllOutcome(block, e, FirstNonValidated(e.tasks), r.val);
  }

  /** A run of the parallel loop from the start: rounds that follow one another. */
  ghost predicate ParallelRun(block: seq<Program>, init: State, run: seq<Round>) {
    run == [] ||
    (ParallelRun(block, init, Earlier(run)) && Happens(block, Last(run)) &&
     Last(run).before == RunEnd(block, init, Earlier(run)))
  }

  function Last(run: seq<Round>): Round
    requires run != []
  {
    run[|run| - 1]
  }

  function Earlier(run: seq<Round>): seq<Round>
    requires run != []
  {
    run[..|run| - 1]
  }

  ghost function RunEnd(block: seq<Program>, init: State, run: seq<Round>): LoopState {
    if run == [] then InitialLoop(block, init) else Last(run).after
  }

  lemma HappeningKeepsInv(block: seq<Program>, init: State, r: Round)
    requires LoopInv(block, init, r.before) && Happens(block, r)
    ensures LoopInv(block, init, r.after) && r.after.iterations == r.before.iterations + 1
    ensures FirstNonValidated(r.before.c.tasks) <= FirstNonValidated(r.after.c.tasks)
    ensures forall j: nat :: j < FirstNonValidated(r.before.c.tasks) ==>
              r.after.c.tasks[j] == r.before.c.tasks[j] && At(r.after.c.table, j) == At(r.before.c.table, j)
  {
    RoundHasEffect(block, init, r);
    RoundKeepsInv(block, init, r.before, r.flushed, r.exec[|r.exec| - 1].c, r.after);
  }

  /** The loop invariant holds after every run, and no run has more than ten rounds. */
  lemma {:induction false} RunKeepsInv(block: seq<Program>, init: State, run: seq<Round>)
    requires ParallelRun(block, init, run)
    ensures LoopInv(block, init, RunEnd(block, init, run))
    ensures RunEnd(block, init, run).iterations == |run| <= 10
    decreases |run|
  {
    if run == [] {
      LoopStartInv(block, init);
    } else {
      RunKeepsInv(block, init, Earlier(run));
      HappeningKeepsInv(block, init, Last(run));
    }
  }

  /** Once validated in the prefix, a task keeps its serial result, response and versions in every later
      round, and the prefix never shrinks. */
  lemma {:induction false} PrefixIsPermanent(block: seq<Program>, init: State, run: seq<Round>, n: nat, j: nat)
    requires ParallelRun(block, init, run) && n <= |run|
    requires j < FirstNonValidated(RunEnd(block, init, run[..n]).c.tasks)
    ensures var early, late := RunEnd(block, init, run[..n]).c, RunEnd(block, init, run).c;
            |early.tasks| == |late.tasks| == |block| && j < FirstNonValidated(late.tasks) &&
            late.tasks[j] == early.tasks[j] && At(late.table, j) == At(early.table, j) &&
            SerialTask(block, init, late, j)
    decreases |run|
  {
    RunKeepsInv(block, init, run);
    if n == |run| {
      assert run[..n] == run;
    } else {
      assert Earlier(run)[..n] == run[..n];
      PrefixIsPermanent(block, init, Earlier(run), n, j);
      RunKeepsInv(block, init, Earlier(run));
      HappeningKeepsInv(block, init, Last(run));
    }
  }

  /** After any number of rounds, a key of the shared state holds its initial value, or the value of a
      version, no estimate, that a task of the validated prefix has in the store. */
  lemma ParentIsContained(block: seq<Program>, init: State, run: seq<Round>, k: StorageKey)
    requires ParallelRun(block, init, run)
    ensures var a := RunEnd(block, init, run);
            Lookup(a.c.parent, k) == Lookup(init, k) ||
            exists i: nat :: i < a.flushedTo <= FirstNonValidated(a.c.tasks) && k in At(a.c.table, i).row &&
                             At(a.c.table, i).row[k] == ValueCell(a.c.tasks[i].incarnation, Lookup(a.c.parent, k))
  {
    RunKeepsInv(block, init, run);
    var a := RunEnd(block, init, run);
    if Lookup(a.c.parent, k) != Lookup(init, k) {
      var i: nat :| i < a.flushedTo && Writes(block, init, i, k) &&
                    SerialOutcome(block, init, i).writeset[k] == Lookup(a.c.parent, k);
      assert SerialTask(block, init, a.c, i);
      assert k in At(a.c.table, i).row;
    }
  }

  /** When every task has ended serially, the final flush yields the serial state, and the responses are
      the serial ones. */
  lemma FinalFlushIsSerial(block: seq<Program>, init: State, c: Config, final: State)
    requires |c.tasks| == |block| && EndedPrefix(block, init, c, |block|)
    requires Contained(block, init, c.parent, |block|) && NoStrays(c) && FlushedAll(c.table, c.parent, final)
    ensures SameState(final, SerialState(block, init, |block|))
    ensures forall j: nat :: j < |block| ==> c.tasks[j].response == SerialResult(block, init, j)
  {
    var n, t := |block|, c.table;
    forall k ensures Lookup(final, k) == Lookup(SerialState(block, init, n), k) {
      TopIsSerial(block, init, c, n, k);
      assert FlushedKeyAll(t, k, Lookup(c.parent, k), Lookup(final, k));
      if m: nat :| Newest(t, k, m) {
        assert Top(t, n, k, m);
      } else {
        NoNewestIsNoTop(t, n, k);
        assert !WrittenBelow(block, init, n, k, Lookup(c.parent, k));
      }
    }
    forall j: nat | j < n ensures c.tasks[j].response == SerialResult(block, init, j) {
      assert EndsSerially(block, init, c, j);
      SerialStep(block, init, j);
    }
  }

  /** If there is a version that is no estimate, there is a highest one. */
  lemma {:induction false} NoNewestIsNoTop(t: Table, n: nat, k: StorageKey)
    requires !HasNewest(t, k) && forall i: nat :: i >= n && k in At(t, i).row ==> At(t, i).row[k].estimate
    ensures NoTop(t, n, k)
  {
    if n > 0 {
      assert !Newest(t, k, n - 1);
      NoNewestIsNoTop(t, n - 1, k);
    }
  }

  lemma ValidatedIsSerial(block: seq<Program>, init: State, a: LoopState, final: State)
    requires LoopInv(block, init, a) && FirstNonValidated(a.c.tasks) == |block|
    requires FlushedAll(a.c.table, a.c.parent, final)
    ensures SameState(final, SerialState(block, init, |block|))
    ensures forall j: nat :: j < |block| ==>
              a.c.tasks[j].response == SerialResult(block, init, j) && SerialResult(block, init, j).Some?
  {
    ContainedGrows(block, init, a.c.parent, a.flushedTo, |block|);
    RanIsEnded(block, init, a.c, |block|);
    FinalFlushIsSerial(block, init, a.c, final);
    forall j: nat | j < |block| ensures SerialResult(block, init, j).Some? {
      assert RanSerially(block, init, a.c, j);
      SerialStep(block, init, j);
    }
  }

  lemma ContainedGrows(block: seq<Program>, init: State, parent: State, b: nat, b': nat)
    requires b <= b' <= |block| && Contained(block, init, parent, b)
    ensures Contained(block, init, parent, b')
  {
    forall k ensures Lookup(parent, k) == Lookup(init, k) || WrittenBelow(block, init, b', k, Lookup(parent, k)) {
      if Lookup(parent, k) != Lookup(init, k) {
        var i: nat :|
          i < b && Writes(block, init, i, k) && SerialOutcome(block, init, i).writeset[k] == Lookup(parent, k);
        assert i < b';
      }
    }
  }

  /** Serial equivalence: for every block and every interleaving of every phase, a run of the loop that
      ends with all tasks validated computes the serial responses and the serial final state. */
  lemma SerialEquivalence(block: seq<Program>, init: State, run: seq<Round>, final: State)
    requires ParallelRun(block, init, run)
    requires FirstNonValidated(RunEnd(block, init, run).c.tasks) == |block|
    requires var a := RunEnd(block, init, run); FlushedAll(a.c.table, a.c.parent, final)
    ensures SameState(final, SerialState(block, init, |block|))
    ensures |RunEnd(block, init, run).c.tasks| == |block|
    ensures forall j: nat :: j < |block| ==>
              RunEnd(block, init, run).c.tasks[j].response == SerialResult(block, init, j)
  {
    RunKeepsInv(block, init, run);
    ValidatedIsSerial(block, init, RunEnd(block, init, run), final);
  }
}
