/** What executeAll establishes, for every interleaving of its workers. */
module ExecutePhase {
  import opened Storage
  import opened Programs
  import opened Table
  import opened Sessions
  import opened Protocol

  /** A finished run `o` of a task, seen in the task and its slot; `abort` is the estimate it hit. */
  ghost predicate Landed(o: Outcome, t0: Task, s0: Slot, t: Task, s: Slot, abort: Option<nat>)
    requires o.result.Some?
  {
    t == FinishedTask(t0, Session(o.readset, o.writeset, abort), o.result.value) &&
    s == if abort.None?
         then Slot(WrittenRow(t0.incarnation, o.writeset), Some(o.writeset.Keys), Some(o.readset))
         else Slot(EstimatedRow(t0.incarnation, o.writeset.Keys), Some(o.writeset.Keys), s0.readset)
  }

  /** The effect of one scheduled task: fixed by its program and the parent state, up to the abort,
      which only a transaction that reads something can suffer. */
  ghost predicate ExecResult(o: Outcome, i: nat, t0: Task, s0: Slot, t: Task, s: Slot) {
    if o.result.None? then t == t0.(runs := t0.runs + 1) && s == s0
    else exists abort: Option<nat> ::
      (abort.Some? ==> abort.value < i && o.readset != map[]) && Landed(o, t0, s0, t, s, abort)
  }

  ghost predicate SessionOf(o: Outcome, i: nat, ss: Session) {
    o.result.Some? && ss.readset == o.readset && ss.writeset == o.writeset &&
    (ss.abort.Some? ==> ss.abort.value < i && ss.readset != map[])
  }

  /** Where one worker stands, said about its own task and slot only. */
  ghost predicate ExecLocal(p: Program, i: nat, parent: State, t0: Task, s0: Slot, t: Task, s: Slot, w: ExecStage) {
    var o := RunFresh(p, parent);
    match w
    case EIdle => t == t0 && s == s0
    case ERun(rest, ss) =>
      t == t0 && s == s0 && Agrees(parent, ss.readset) &&
      Run(rest, parent, ss.readset, ss.writeset) == o &&
      (ss.abort.Some? ==> ss.abort.value < i && ss.readset != map[])
    case ERemove(stale, ss) =>
      SessionOf(o, i, ss) && t == FinishedTask(t0, ss, o.result.value) && s.readset == s0.readset &&
      s.row.Keys <= stale + o.writeset.Keys
    case EWrite(todo, ss) =>
      SessionOf(o, i, ss) && t == FinishedTask(t0, ss, o.result.value) && s.readset == s0.readset &&
      todo <= o.writeset.Keys && s.row.Keys <= o.writeset.Keys &&
      forall k :: k in o.writeset.Keys - todo ==> k in s.row && s.row[k] == SessionCell(t0.incarnation, ss, k)
    case EDone => ExecResult(o, i, t0, s0, t, s)
  }

  ghost predicate ExecInv(block: seq<Program>, base: Config, scheduled: set<nat>, x: ExecState) {
    |block| == |base.tasks| == |x.c.tasks| == |x.stages| && x.c.parent == base.parent &&
    (forall i: nat :: i < |block| && i in scheduled ==>
       ExecLocal(block[i], i, base.parent, base.tasks[i], At(base.table, i),
                 x.c.tasks[i], At(x.c.table, i), x.stages[i])) &&
    (forall i: nat :: i < |block| && i !in scheduled ==> x.stages[i].EDone? && x.c.tasks[i] == base.tasks[i]) &&
    (forall i: nat :: i !in scheduled ==> At(x.c.table, i) == At(base.table, i))
  }

  /** The phase starts with every scheduled slot supported by its key list. */
  ghost predicate ExecReady(block: seq<Program>, base: Config, scheduled: set<nat>) {
    |block| == |base.tasks| && (forall i :: i in scheduled ==> i < |block| && Supported(At(base.table, i)))
  }

  lemma ExecStartInv(block: seq<Program>, base: Config, scheduled: set<nat>)
    requires ExecReady(block, base, scheduled)
    ensures ExecInv(block, base, scheduled, ExecStart(base, scheduled))
  {
  }

  /** Writing the last cell leaves exactly the row of the session. */
  lemma RowComplete(o: Outcome, i: nat, t0: Task, s0: Slot, t: Task, s: Slot, ss: Session)
    requires SessionOf(o, i, ss) && t == FinishedTask(t0, ss, o.result.value) && s.readset == s0.readset
    requires s.row.Keys <= o.writeset.Keys
    requires forall k :: k in o.writeset.Keys ==> k in s.row && s.row[k] == SessionCell(t0.incarnation, ss, k)
    ensures ExecResult(o, i, t0, s0, t, Publish(s, ss))
  {
    assert s.row == if ss.abort.None? then WrittenRow(t0.incarnation, o.writeset)
                    else EstimatedRow(t0.incarnation, o.writeset.Keys);
    assert ss == Session(o.readset, o.writeset, ss.abort);
    assert Landed(o, t0, s0, t, Publish(s, ss), ss.abort);
  }

  lemma ExecRunLocal(block: seq<Program>, base: Config, x: ExecState, i: nat, k: StorageKey)
    requires |block| == |base.tasks| == |x.stages| && ExecEnabled(x, i, k) && x.c.parent == base.parent
    requires x.stages[i].ERun? && Supported(At(base.table, i))
    requires ExecLocal(block[i], i, base.parent, base.tasks[i], At(base.table, i),
                       x.c.tasks[i], At(x.c.table, i), x.stages[i])
    ensures var y := ExecMove(block, x, i, k);
            ExecLocal(block[i], i, base.parent, base.tasks[i], At(base.table, i),
                      y.c.tasks[i], At(y.c.table, i), y.stages[i])
  {
    match x.stages[i].rest
    case Done(r) =>
    case Fail =>
    case Write(_, _, _) =>
    case Read(_, _, _) =>
  }

  lemma ExecStepLocal(block: seq<Program>, base: Config, x: ExecState, i: nat, k: StorageKey)
    requires |block| == |base.tasks| == |x.stages| && ExecEnabled(x, i, k) && x.c.parent == base.parent
    requires Supported(At(base.table, i))
    requires ExecLocal(block[i], i, base.parent, base.tasks[i], At(base.table, i),
                       x.c.tasks[i], At(x.c.table, i), x.stages[i])
    ensures var y := ExecMove(block, x, i, k);
            ExecLocal(block[i], i, base.parent, base.tasks[i], At(base.table, i),
                      y.c.tasks[i], At(y.c.table, i), y.stages[i])
  {
    var s := At(x.c.table, i);
    match x.stages[i]
    case ERun(_, _) => ExecRunLocal(block, base, x, i, k);
    case EWrite(todo, ss) =>
      if todo == {} {
        RowComplete(RunFresh(block[i], base.parent), i, base.tasks[i], At(base.table, i), x.c.tasks[i], s, ss);
      }
    case _ =>
  }

  /** A move of worker `i` touches its own task, slot and stage only. */
  ghost predicate ExecTouchesOnly(x: ExecState, y: ExecState, i: nat) {
    |y.c.tasks| == |x.c.tasks| && |y.stages| == |x.stages| && y.c.parent == x.c.parent &&
    (forall j: nat :: j < |x.c.tasks| && j != i ==> y.c.tasks[j] == x.c.tasks[j]) &&
    (forall j: nat :: j < |x.stages| && j != i ==> y.stages[j] == x.stages[j]) &&
    (forall j: nat :: j != i ==> At(y.c.table, j) == At(x.c.table, j))
  }

  lemma ExecMoveTouches(block: seq<Program>, x: ExecState, i: nat, k: StorageKey)
    requires |block| == |x.stages| && ExecEnabled(x, i, k)
    ensures ExecTouchesOnly(x, ExecMove(block, x, i, k), i)
  {
  }

  /** One move of any worker keeps the phase invariant. */
  lemma ExecStepInv(block: seq<Program>, base: Config, scheduled: set<nat>, x: ExecState, i: nat, k: StorageKey)
    requires ExecReady(block, base, scheduled) && ExecInv(block, base, scheduled, x)
    requires ExecEnabled(x, i, k)
    ensures ExecInv(block, base, scheduled, ExecMove(block, x, i, k))
  {
    assert i in scheduled;
    ExecStepLocal(block, base, x, i, k);
    ExecMoveTouches(block, x, i, k);
    ExecInvFromParts(block, base, scheduled, x, ExecMove(block, x, i, k), i);
  }

  lemma ExecInvFromParts(block: seq<Program>, base: Config, scheduled: set<nat>, x: ExecState, y: ExecState, i: nat)
    requires ExecInv(block, base, scheduled, x) && ExecTouchesOnly(x, y, i) && i in scheduled && i < |block|
    requires ExecLocal(block[i], i, base.parent, base.tasks[i], At(base.table, i),
                       y.c.tasks[i], At(y.c.table, i), y.stages[i])
    ensures ExecInv(block, base, scheduled, y)
  {
  }

  /* A task whose lower neighbours hold no estimates and stay put cannot abort. */

  ghost predicate ClearBelow(base: Config, scheduled: set<nat>, i: nat) {
    forall j: nat :: j < i ==> j !in scheduled && NoEstimates(At(base.table, j).row)
  }

  ghost predicate Undisturbed(t: Task, w: ExecStage) {
    match w
    case EIdle => true
    case ERun(_, ss) => ss.abort.None?
    case ERemove(_, ss) => ss.abort.None?
    case EWrite(_, ss) => ss.abort.None?
    case EDone => !t.status.Aborted?
  }

  lemma ExecStepUndisturbed(block: seq<Program>, base: Config, scheduled: set<nat>, x: ExecState,
                            i: nat, k: StorageKey, j: nat)
    requires ExecReady(block, base, scheduled) && ExecInv(block, base, scheduled, x)
    requires ExecEnabled(x, i, k)
    requires j in scheduled && ClearBelow(base, scheduled, j) && !base.tasks[j].status.Aborted?
    requires Undisturbed(x.c.tasks[j], x.stages[j])
    ensures Undisturbed(ExecMove(block, x, i, k).c.tasks[j], ExecMove(block, x, i, k).stages[j])
  {
    if i == j {
      match x.stages[i]
      case ERun(Read(rk, _, _), ss) =>
        var hit := Scan(x.c.table, i, rk);
        if hit.Some? {
          assert At(x.c.table, hit.value) == At(base.table, hit.value);
          assert !BlockedByEstimate(x.c.table, i, rk);
        }
      case _ =>
    }
  }

  /* Whole phases. */

  ghost predicate ExecMoves(block: seq<Program>, x: ExecState, y: ExecState) {
    exists i: nat, k :: |block| == |x.stages| && ExecEnabled(x, i, k) && y == ExecMove(block, x, i, k)
  }

  /** A run of the phase: a path up to the point where all workers are done. */
  ghost predicate ExecTrace(block: seq<Program>, base: Config, scheduled: set<nat>, tr: seq<ExecState>) {
    ExecPath(block, base, scheduled, tr) && ExecFinished(tr[|tr| - 1])
  }

  /** Any sequence of enabled moves from the start of the phase. */
  ghost predicate ExecPath(block: seq<Program>, base: Config, scheduled: set<nat>, tr: seq<ExecState>) {
    |tr| > 0 && tr[0] == ExecStart(base, scheduled) &&
    forall n :: 0 <= n < |tr| - 1 ==> ExecMoves(block, tr[n], tr[n + 1])
  }

  lemma {:induction false} ExecTraceInv(block: seq<Program>, base: Config, scheduled: set<nat>, tr: seq<ExecState>,
                                        n: nat)
    requires ExecReady(block, base, scheduled) && ExecPath(block, base, scheduled, tr) && n < |tr|
    ensures ExecInv(block, base, scheduled, tr[n])
    ensures forall j :: j in scheduled && ClearBelow(base, scheduled, j) && !base.tasks[j].status.Aborted? ==>
              Undisturbed(tr[n].c.tasks[j], tr[n].stages[j])
  {
    if n == 0 {
      ExecStartInv(block, base, scheduled);
    } else {
      ExecTraceInv(block, base, scheduled, tr, n - 1);
      assert ExecMoves(block, tr[n - 1], tr[n]);
      var i: nat, k :| ExecEnabled(tr[n - 1], i, k) && tr[n] == ExecMove(block, tr[n - 1], i, k);
      ExecStepInv(block, base, scheduled, tr[n - 1], i, k);
      forall j | j in scheduled && ClearBelow(base, scheduled, j) && !base.tasks[j].status.Aborted?
        ensures Undisturbed(tr[n].c.tasks[j], tr[n].stages[j])
      {
        ExecStepUndisturbed(block, base, scheduled, tr[n - 1], i, k, j);
      }
    }
  }

  /** By state `n` of the phase, transaction `i` had run into an estimate of transaction `j`, on a key that it
      read. */
  ghost predicate MetEstimate(tr: seq<ExecState>, n: nat, i: nat, readset: ReadSet, j: nat) {
    j < i && exists m: nat, k :: m <= n && m < |tr| && k in readset && MetAt(tr[m].c.table, i, k, j)
  }

  /** The nearest version of `k` below `i` is an estimate of `j`. */
  ghost predicate MetAt(t: Table, i: nat, k: StorageKey, j: nat) {
    Scan(t, i, k) == Some(j) && At(t, j).row[k].estimate
  }

  /** What transaction `i` depends on so far: on nothing new, or on one whose estimate it has met. */
  ghost predicate Explained(tr: seq<ExecState>, n: nat, i: nat, t0: Task, t: Task, w: ExecStage, o: Outcome) {
    match w
    case EIdle => t == t0
    case ERun(_, ss) =>
      t == t0 && (ss.abort.Some? ==> MetEstimate(tr, n, i, ss.readset, ss.abort.value))
    case EDone =>
      if t.status.Aborted? then exists j :: t.deps == t0.deps + {j} && MetEstimate(tr, n, i, o.readset, j)
      else t.deps == t0.deps
    case _ =>
      w.session.readset == o.readset && (t.status.Aborted? <==> w.session.abort.Some?) &&
      if w.session.abort.Some? then
        t.deps == t0.deps + {w.session.abort.value} && MetEstimate(tr, n, i, o.readset, w.session.abort.value)
      else t.deps == t0.deps
  }

  lemma MetEstimateGrows(tr: seq<ExecState>, n: nat, i: nat, readset: ReadSet, readset': ReadSet, j: nat)
    requires MetEstimate(tr, n, i, readset, j) && readset.Keys <= readset'.Keys
    ensures MetEstimate(tr, n + 1, i, readset', j)
  {
    var m: nat, k :| m <= n && m < |tr| && k in readset && MetAt(tr[m].c.table, i, k, j);
    assert m <= n + 1 && k in readset';
  }

  /** A read that meets an estimate explains the abort. */
  lemma ReadExplains(tr: seq<ExecState>, n: nat, i: nat, t0: Task, t: Task, ss: Session, rk: StorageKey,
                     next: Program, rest: Program, o: Outcome)
    requires n + 1 < |tr| && Explained(tr, n, i, t0, t, ERun(rest, ss), o)
    ensures Explained(tr, n + 1, i, t0, t,
                      ERun(next, SessionRead(tr[n].c.table, tr[n].c.parent, i, ss, rk)), o)
  {
    var x := tr[n].c;
    var after := SessionRead(x.table, x.parent, i, ss, rk);
    if ss.abort.Some? {
      MetEstimateGrows(tr, n, i, ss.readset, after.readset, ss.abort.value);
    } else if after.abort.Some? {
      assert rk in after.readset && MetAt(tr[n].c.table, i, rk, after.abort.value);
    }
  }

  lemma OwnMoveExplained(block: seq<Program>, base: Config, scheduled: set<nat>, tr: seq<ExecState>, n: nat, i: nat,
                         k: StorageKey)
    requires ExecReady(block, base, scheduled) && n + 1 < |tr| && ExecInv(block, base, scheduled, tr[n])
    requires ExecEnabled(tr[n], i, k) && tr[n + 1] == ExecMove(block, tr[n], i, k) && i in scheduled
    requires !base.tasks[i].status.Aborted?
    requires Explained(tr, n, i, base.tasks[i], tr[n].c.tasks[i], tr[n].stages[i], RunFresh(block[i], base.parent))
    ensures |tr[n + 1].c.tasks| == |tr[n + 1].stages| == |block|
    ensures Explained(tr, n + 1, i, base.tasks[i], tr[n + 1].c.tasks[i], tr[n + 1].stages[i],
                      RunFresh(block[i], base.parent))
  {
    var x, o, t0 := tr[n], RunFresh(block[i], base.parent), base.tasks[i];
    assert ExecLocal(block[i], i, base.parent, t0, At(base.table, i), x.c.tasks[i], At(x.c.table, i), x.stages[i]);
    match x.stages[i]
    case ERun(Read(rk, _, _), ss) =>
      ReadExplains(tr, n, i, t0, x.c.tasks[i], ss, rk, tr[n + 1].stages[i].rest, x.stages[i].rest, o);
    case ERun(_, ss) =>
      if ss.abort.Some? {
        MetEstimateGrows(tr, n, i, ss.readset, ss.readset, ss.abort.value);
      }
    case ERemove(_, ss) =>
      if ss.abort.Some? {
        MetEstimateGrows(tr, n, i, o.readset, o.readset, ss.abort.value);
      }
    case EWrite(_, ss) =>
      if ss.abort.Some? {
        MetEstimateGrows(tr, n, i, o.readset, o.readset, ss.abort.value);
      }
    case _ =>
  }

  lemma OtherMoveExplained(tr: seq<ExecState>, n: nat, i: nat, t0: Task, t: Task, w: ExecStage, o: Outcome)
    requires Explained(tr, n, i, t0, t, w, o)
    ensures Explained(tr, n + 1, i, t0, t, w, o)
  {
    match w
    case EIdle =>
    case EDone =>
      if t.status.Aborted? {
        var j :| t.deps == t0.deps + {j} && MetEstimate(tr, n, i, o.readset, j);
        MetEstimateGrows(tr, n, i, o.readset, o.readset, j);
      }
    case _ =>
      if w.session.abort.Some? {
        MetEstimateGrows(tr, n, i, w.session.readset, w.session.readset, w.session.abort.value);
      }
  }

  lemma {:induction false} TraceExplained(block: seq<Program>, base: Config, scheduled: set<nat>, tr: seq<ExecState>,
                                          n: nat, i: nat)
    requires ExecReady(block, base, scheduled) && ExecPath(block, base, scheduled, tr) && n < |tr|
    requires i in scheduled && !base.tasks[i].status.Aborted?
    ensures |tr[n].c.tasks| == |tr[n].stages| == |block|
    ensures Explained(tr, n, i, base.tasks[i], tr[n].c.tasks[i], tr[n].stages[i], RunFresh(block[i], base.parent))
  {
    hide Explained, ExecLocal;
    ExecTraceInv(block, base, scheduled, tr, n);
    if n == 0 {
      StartExplained(block, base, scheduled, tr, i);
    } else {
      TraceExplained(block, base, scheduled, tr, n - 1, i);
      ExecTraceInv(block, base, scheduled, tr, n - 1);
      assert ExecMoves(block, tr[n - 1], tr[n]);
      var mover: nat, k :| ExecEnabled(tr[n - 1], mover, k) && tr[n] == ExecMove(block, tr[n - 1], mover, k);
      if mover == i {
        OwnMoveExplained(block, base, scheduled, tr, n - 1, i, k);
      } else {
        ExecMoveTouches(block, tr[n - 1], mover, k);
        OtherMoveExplained(tr, n - 1, i, base.tasks[i], tr[n].c.tasks[i], tr[n].stages[i],
                           RunFresh(block[i], base.parent));
      }
    }
  }

  lemma StartExplained(block: seq<Program>, base: Config, scheduled: set<nat>, tr: seq<ExecState>, i: nat)
    requires ExecReady(block, base, scheduled) && |tr| > 0 && tr[0] == ExecStart(base, scheduled) && i in scheduled
    ensures Explained(tr, 0, i, base.tasks[i], tr[0].c.tasks[i], tr[0].stages[i], RunFresh(block[i], base.parent))
  {
  }

  /** After executeAll, a scheduled task that has aborted depends, besides what it depended on before, on
      exactly one transaction: one whose estimate was the nearest lower version of a key that it read, at
      some moment of the phase. A task that has not aborted depends on nothing new. */
  lemma AbortsAreExplained(block: seq<Program>, base: Config, scheduled: set<nat>, tr: seq<ExecState>, i: nat)
    requires ExecReady(block, base, scheduled) && ExecTrace(block, base, scheduled, tr)
    requires i in scheduled && !base.tasks[i].status.Aborted?
    ensures var t := tr[|tr| - 1].c.tasks;
            |t| == |block| &&
            if t[i].status.Aborted? then
              exists j: nat, m: nat, k ::
                t[i].deps == base.tasks[i].deps + {j} && j < i && m < |tr| &&
                k in RunFresh(block[i], base.parent).readset && Scan(tr[m].c.table, i, k) == Some(j) &&
                At(tr[m].c.table, j).row[k].estimate
            else t[i].deps == base.tasks[i].deps
  {
    TraceExplained(block, base, scheduled, tr, |tr| - 1, i);
    var last, o := tr[|tr| - 1], RunFresh(block[i], base.parent);
    assert last.stages[i].EDone?;
    if last.c.tasks[i].status.Aborted? {
      var j :| last.c.tasks[i].deps == base.tasks[i].deps + {j} && MetEstimate(tr, |tr| - 1, i, o.readset, j);
      var m: nat, k :| m < |tr| && k in o.readset && MetAt(tr[m].c.table, i, k, j);
      assert Scan(tr[m].c.table, i, k) == Some(j);
    }
  }

  /** The outcome of a whole executeAll, whatever the interleaving. */
  ghost predicate ExecPhase(block: seq<Program>, base: Config, scheduled: set<nat>, c: Config) {
    |block| == |base.tasks| == |c.tasks| && c.parent == base.parent &&
    (forall i: nat :: i < |block| && i in scheduled ==>
       ExecResult(RunFresh(block[i], base.parent), i, base.tasks[i], At(base.table, i), c.tasks[i], At(c.table, i))) &&
    (forall i: nat :: i < |block| && i !in scheduled ==> c.tasks[i] == base.tasks[i]) &&
    (forall i: nat :: i !in scheduled ==> At(c.table, i) == At(base.table, i)) &&
    (forall i: nat :: i < |block| && i in scheduled && c.tasks[i].status.Aborted? ==>
       base.tasks[i].status.Aborted? || !ClearBelow(base, scheduled, i))
  }

  lemma ExecFinal(block: seq<Program>, base: Config, scheduled: set<nat>, x: ExecState)
    requires ExecInv(block, base, scheduled, x) && ExecFinished(x)
    requires forall j :: j in scheduled && j < |block| && !Undisturbed(x.c.tasks[j], x.stages[j]) ==>
               base.tasks[j].status.Aborted? || !ClearBelow(base, scheduled, j)
    ensures ExecPhase(block, base, scheduled, x.c)
  {
  }

  lemma ExecuteAllOutcome(block: seq<Program>, base: Config, scheduled: set<nat>, tr: seq<ExecState>)
    requires ExecReady(block, base, scheduled) && ExecTrace(block, base, scheduled, tr)
    ensures ExecPhase(block, base, scheduled, tr[|tr| - 1].c)
  {
    ExecTraceInv(block, base, scheduled, tr, |tr| - 1);
    ExecFinal(block, base, scheduled, tr[|tr| - 1]);
  }

  /** The recorded sets of a worker whose transaction has ended. */
  ghost predicate Records(w: ExecStage, readset: ReadSet, writeset: WriteSet) {
    (w.ERemove? || w.EWrite?) && w.session.readset == readset && w.session.writeset == writeset
  }

  /** Two interleavings of the same phase record the same readset and writeset for every task, aborted
      or not. */
  lemma RecordingsAgree(block: seq<Program>, base: Config, scheduled: set<nat>,
                        tr: seq<ExecState>, tr': seq<ExecState>, n: nat, n': nat, i: nat)
    requires ExecReady(block, base, scheduled) && i < |block| && n < |tr| && n' < |tr'|
    requires ExecPath(block, base, scheduled, tr) && ExecPath(block, base, scheduled, tr')
    ensures |tr[n].stages| == |tr'[n'].stages| == |block|
    ensures var w, w' := tr[n].stages[i], tr'[n'].stages[i];
            (w.ERemove? || w.EWrite?) && (w'.ERemove? || w'.EWrite?) ==>
              Records(w', w.session.readset, w.session.writeset)
  {
    ExecTraceInv(block, base, scheduled, tr, n);
    ExecTraceInv(block, base, scheduled, tr', n');
    if i in scheduled {
      assert ExecLocal(block[i], i, base.parent, base.tasks[i], At(base.table, i),
                       tr[n].c.tasks[i], At(tr[n].c.table, i), tr[n].stages[i]);
      assert ExecLocal(block[i], i, base.parent, base.tasks[i], At(base.table, i),
                       tr'[n'].c.tasks[i], At(tr'[n'].c.table, i), tr'[n'].stages[i]);
    }
  }

  /** Two interleavings of the same phase leave the same readset, versions and response of every task that
      neither of them aborts, the same estimates of every task that both of them abort, and the same
      list of written keys in any case: only the verdict "aborted" depends on the order. */
  lemma InterleavingsAgree(block: seq<Program>, base: Config, scheduled: set<nat>,
                           tr: seq<ExecState>, tr': seq<ExecState>, i: nat)
    requires ExecReady(block, base, scheduled) && i < |block| && !base.tasks[i].status.Aborted?
    requires ExecTrace(block, base, scheduled, tr) && ExecTrace(block, base, scheduled, tr')
    ensures var c, c' := tr[|tr| - 1].c, tr'[|tr'| - 1].c;
            |c.tasks| == |c'.tasks| == |block| && At(c.table, i).keys == At(c'.table, i).keys &&
            At(c.table, i).row.Keys == At(c'.table, i).row.Keys &&
            (c.tasks[i].status == c'.tasks[i].status ==> At(c.table, i) == At(c'.table, i)) &&
            if !c.tasks[i].status.Aborted? && !c'.tasks[i].status.Aborted? then c.tasks[i] == c'.tasks[i]
            else
              i in scheduled && RunFresh(block[i], base.parent).result.Some? &&
              c.tasks[i].(status := Aborted, deps := {}, response := None) ==
              c'.tasks[i].(status := Aborted, deps := {}, response := None)
  {
    ExecuteAllOutcome(block, base, scheduled, tr);
    ExecuteAllOutcome(block, base, scheduled, tr');
  }
}
