/** A worker on its own. When nobody else moves, the accesses of one worker add up to what the
    synchronous pass does in one go: executeTask to ExecuteAlone, shouldRerun to Revalidate. */
module Solo {
  import opened Storage
  import opened Programs
  import opened Table
  import opened Sessions
  import opened Protocol
  import opened ExecutePhase
  import opened ValidatePhase
  import opened Synchronous

  /* Execution. */

  /** Where the worker stands, given the session `final` that its run ends with. */
  ghost predicate OnTheWay(base: Config, i: nat, final: Session, o: Outcome, t0: Task, t: Task, s: Slot, w: ExecStage) {
    match w
    case EIdle => true
    case ERun(rest, ss) => SessionRun(rest, base.table, base.parent, i, ss) == final
    case ERemove(_, ss) => ss == final
    case EWrite(_, ss) => ss == final
    case EDone => o.result.Some? ==> Landed(o, t0, At(base.table, i), t, s, final.abort)
  }

  ghost predicate SoloInv(block: seq<Program>, base: Config, i: nat, x: ExecState)
    requires i < |block| == |base.tasks| == |x.stages| == |x.c.tasks|
  {
    OnTheWay(base, i, SessionRun(block[i], base.table, base.parent, i, NEW_SESSION), RunFresh(block[i], base.parent),
             base.tasks[i], x.c.tasks[i], At(x.c.table, i), x.stages[i])
  }

  lemma SoloStep(block: seq<Program>, base: Config, i: nat, x: ExecState, k: StorageKey)
    requires ExecReady(block, base, {i}) && ExecInv(block, base, {i}, x) && ExecEnabled(x, i, k)
    requires i < |block| && SoloInv(block, base, i, x)
    ensures var y := ExecMove(block, x, i, k);
            |y.stages| == |y.c.tasks| == |block| && SoloInv(block, base, i, y)
  {
    assert ExecLocal(block[i], i, base.parent, base.tasks[i], At(base.table, i),
                     x.c.tasks[i], At(x.c.table, i), x.stages[i]);
    match x.stages[i]
    case ERun(rest, ss) => SoloRunStep(block, base, i, x, k);
    case EWrite(todo, ss) =>
      if todo == {} {
        RowComplete(RunFresh(block[i], base.parent), i, base.tasks[i], At(base.table, i),
                    x.c.tasks[i], At(x.c.table, i), ss);
      }
    case _ =>
  }

  lemma SoloRunStep(block: seq<Program>, base: Config, i: nat, x: ExecState, k: StorageKey)
    requires ExecReady(block, base, {i}) && ExecInv(block, base, {i}, x) && ExecEnabled(x, i, k)
    requires i < |block| && SoloInv(block, base, i, x) && x.stages[i].ERun?
    ensures var y := ExecMove(block, x, i, k);
            |y.stages| == |y.c.tasks| == |block| && SoloInv(block, base, i, y)
  {
    assert ExecLocal(block[i], i, base.parent, base.tasks[i], At(base.table, i),
                     x.c.tasks[i], At(x.c.table, i), x.stages[i]);
    match x.stages[i].rest
    case Read(rk, _, _) =>
      ScanFrame(x.c.table, base.table, i, rk);
    case _ =>
  }

  lemma {:induction false} SoloPath(block: seq<Program>, base: Config, i: nat, tr: seq<ExecState>, n: nat)
    requires ExecReady(block, base, {i}) && ExecPath(block, base, {i}, tr) && n < |tr|
    ensures ExecInv(block, base, {i}, tr[n]) && SoloInv(block, base, i, tr[n])
  {
    ExecTraceInv(block, base, {i}, tr, n);
    if n > 0 {
      SoloPath(block, base, i, tr, n - 1);
      assert ExecMoves(block, tr[n - 1], tr[n]);
      var j: nat, k :| ExecEnabled(tr[n - 1], j, k) && tr[n] == ExecMove(block, tr[n - 1], j, k);
      assert j == i;
      SoloStep(block, base, i, tr[n - 1], k);
    }
  }

  ghost predicate SameConfig(c: Config, d: Config) {
    c.tasks == d.tasks && c.parent == d.parent && forall i: nat :: At(c.table, i) == At(d.table, i)
  }

  lemma LandedIsPublished(c: Config, i: nat, o: Outcome, t: Task, s: Slot, ss: Session)
    requires i < |c.tasks| && Supported(At(c.table, i)) && o.result.Some?
    requires ss.readset == o.readset && ss.writeset == o.writeset
    requires Landed(o, c.tasks[i], At(c.table, i), t, s, ss.abort)
    ensures var d := PublishedConfig(c, i, ss, o.result.value);
            |d.tasks| == |c.tasks| && d.tasks[i] == t && At(d.table, i) == s && d.parent == c.parent
  {
    assert At(c.table, i).row - ListedKeys(At(c.table, i)) == map[];
  }

  lemma PublishedTouchesOne(c: Config, i: nat, ss: Session, r: Response, j: nat)
    requires i < |c.tasks| && j != i
    ensures var d := PublishedConfig(c, i, ss, r);
            |d.tasks| == |c.tasks| && (j < |c.tasks| ==> d.tasks[j] == c.tasks[j]) && At(d.table, j) == At(c.table, j)
  {
  }

  /** A run of executeAll with a single scheduled task is ExecuteAlone of that task. */
  lemma AloneInOneGo(block: seq<Program>, base: Config, i: nat, tr: seq<ExecState>)
    requires ExecReady(block, base, {i}) && ExecTrace(block, base, {i}, tr)
    ensures SameConfig(tr[|tr| - 1].c, ExecuteAlone(block, base, i))
  {
    hide Landed, PublishedConfig;
    var x := tr[|tr| - 1];
    SoloPath(block, base, i, tr, |tr| - 1);
    var o, ss := RunFresh(block[i], base.parent), SessionRun(block[i], base.table, base.parent, i, NEW_SESSION);
    SessionRunRecords(block[i], base.table, base.parent, i, NEW_SESSION);
    assert ExecResult(o, i, base.tasks[i], At(base.table, i), x.c.tasks[i], At(x.c.table, i));
    if o.result.Some? {
      LandedIsPublished(base, i, o, x.c.tasks[i], At(x.c.table, i), ss);
    }
    forall j: nat
      ensures At(x.c.table, j) == At(ExecuteAlone(block, base, i).table, j)
      ensures j < |block| ==> x.c.tasks[j] == ExecuteAlone(block, base, i).tasks[j]
    {
      if j != i {
        assert j !in {i};
        if o.result.Some? {
          PublishedTouchesOne(base, i, ss, o.result.value, j);
        }
      }
    }
    assert x.c.tasks == ExecuteAlone(block, base, i).tasks;
  }

  /* Validation. */

  /** The indices to blame for the reads of some of the keys. */
  ghost function BlamedFor(c: Config, i: nat, keys: set<StorageKey>): set<nat> {
    BlamedIndices(c.table, i, map k | k in keys && k in ReadsetOf(At(c.table, i)) :: ReadsetOf(At(c.table, i))[k])
  }

  /** Slot `s` is that of task `i` with the versions of `keys` turned into estimates. */
  ghost predicate Estimated(c: Config, i: nat, s: Slot, keys: set<StorageKey>, readset: Option<ReadSet>)
    requires i < |c.tasks|
  {
    s == Slot(At(c.table, i).row + EstimatedRow(c.tasks[i].incarnation, keys), At(c.table, i).keys, readset)
  }

  /** The reads do not all stand, the versions are invalidated, and the task depends on those to blame. */
  ghost predicate Demotes(c: Config, i: nat, t: Task, s: Slot, status: Status)
    requires i < |c.tasks|
  {
    var readKeys := ReadsetOf(At(c.table, i)).Keys;
    !Stand(c, i, readKeys) && Estimated(c, i, s, ListedKeys(At(c.table, i)), None) &&
    t == c.tasks[i].(status := status, deps := c.tasks[i].deps + BlamedFor(c, i, readKeys))
  }

  /** Where the worker of a task that is checked stands. */
  ghost predicate Checking(c: Config, i: nat, t: Task, s: Slot, w: ValStage)
    requires i < |c.tasks|
  {
    var t0, s0 := c.tasks[i], At(c.table, i);
    var readKeys := ReadsetOf(s0).Keys;
    match w
    case VIdle => t == t0 && s == s0
    case VCheck(keys, valid, conflicts) =>
      t == t0 && s == s0 && keys <= readKeys && (valid <==> Stand(c, i, readKeys - keys)) &&
      conflicts == BlamedFor(c, i, readKeys - keys) && (valid ==> conflicts == {})
    case VInvalidate(cells, blamed) =>
      t == t0 && !Stand(c, i, readKeys) && blamed == BlamedFor(c, i, readKeys) && cells <= ListedKeys(s0) &&
      Estimated(c, i, s, ListedKeys(s0) - cells, s0.readset)
    case VDeps(deps, invalid) =>
      Demotes(c, i, t, s, t0.status) && invalid && deps <= t.deps && AllValidated(c.tasks, t.deps - deps)
    case VReset => Demotes(c, i, t, s, t0.status) && AllValidated(c.tasks, t.deps)
    case VBlocked => Demotes(c, i, t, s, t0.status) && !AllValidated(c.tasks, t.deps)
    case VWaiting => Demotes(c, i, t, s, Waiting) && !AllValidated(c.tasks, t.deps)
    case VValidated => t == t0.(status := Validated) && s == s0 && Stand(c, i, readKeys)
    case _ => false
  }

  /** One worker moves on the configuration `c`, all others stay put. */
  ghost predicate SoloCheck(c: Config, i: nat, y: ValState) {
    |y.stages| == |y.c.tasks| == |c.tasks| && i < |c.tasks| && y.c.parent == c.parent &&
    (forall j: nat :: j < |c.tasks| && j != i ==> y.c.tasks[j] == c.tasks[j]) &&
    (forall j: nat :: j != i ==> At(y.c.table, j) == At(c.table, j)) &&
    Checking(c, i, y.c.tasks[i], At(y.c.table, i), y.stages[i])
  }

  lemma SoloLookup(c: Config, i: nat, y: ValState, keys: set<StorageKey>, valid: bool, conflicts: set<nat>,
                   k: StorageKey)
    requires SoloCheck(c, i, y) && y.stages[i] == VCheck(keys, valid, conflicts) && k in keys
    ensures Checking(c, i, y.c.tasks[i], At(y.c.table, i),
                     CheckOne(y.c.table, y.c.parent, i, k, ReadsetOf(At(c.table, i))[k], y.stages[i]))
  {
    ScanFrame(y.c.table, c.table, i, k);
    var readKeys := ReadsetOf(At(c.table, i)).Keys;
    assert readKeys - (keys - {k}) == (readKeys - keys) + {k};
  }

  lemma SoloCheckStep(c: Config, i: nat, y: ValState, k: StorageKey, d: nat)
    requires SoloCheck(c, i, y) && ValEnabled(y, i, k, d) && (y.stages[i].VIdle? || y.stages[i].VCheck?)
    requires Checkable(c.tasks[i])
    ensures SoloCheck(c, i, ValMove(y, i, k, d))
  {
    var s0 := At(c.table, i);
    var readKeys := ReadsetOf(s0).Keys;
    ValMoveTouches(y, i, k, d);
    assert readKeys - readKeys == {};
    if y.stages[i].VCheck? {
      if y.stages[i].keys == {} {
        assert readKeys - {} == readKeys;
        assert EstimatedRow(c.tasks[i].incarnation, ListedKeys(s0) - ListedKeys(s0)) == map[];
      } else {
        SoloLookup(c, i, y, y.stages[i].keys, y.stages[i].valid, y.stages[i].conflicts, k);
      }
    }
  }

  lemma SoloDemoteStep(c: Config, i: nat, y: ValState, k: StorageKey, d: nat)
    requires SoloCheck(c, i, y) && ValEnabled(y, i, k, d) && Checkable(c.tasks[i])
    requires y.stages[i].VInvalidate? || y.stages[i].VDeps? || y.stages[i].VBlocked?
    ensures SoloCheck(c, i, ValMove(y, i, k, d))
  {
    hide BlamedFor, Stand;
    ValMoveTouches(y, i, k, d);
    if y.stages[i].VInvalidate? {
      var listed, cells := ListedKeys(At(c.table, i)), y.stages[i].cells;
      if cells == {} {
        assert listed - cells == listed;
      } else {
        assert listed - (cells - {k}) == (listed - cells) + {k};
      }
    }
  }

  lemma SoloValStep(c: Config, i: nat, y: ValState, k: StorageKey, d: nat)
    requires SoloCheck(c, i, y) && ValEnabled(y, i, k, d) && Checkable(c.tasks[i]) && !y.stages[i].VReset?
    ensures SoloCheck(c, i, ValMove(y, i, k, d))
  {
    if y.stages[i].VIdle? || y.stages[i].VCheck? {
      SoloCheckStep(c, i, y, k, d);
    } else if y.stages[i].VInvalidate? || y.stages[i].VDeps? || y.stages[i].VBlocked? {
      SoloDemoteStep(c, i, y, k, d);
    }
  }

  ghost predicate MovesAlone(i: nat, y: ValState, z: ValState) {
    exists k, d: nat :: ValEnabled(y, i, k, d) && !y.stages[i].VReset? && z == ValMove(y, i, k, d)
  }

  lemma {:induction false} SoloValPath(c: Config, i: nat, tr: seq<ValState>, n: nat)
    requires n < |tr| && SoloCheck(c, i, tr[0]) && Checkable(c.tasks[i])
    requires forall m :: 0 <= m < |tr| - 1 ==> MovesAlone(i, tr[m], tr[m + 1])
    ensures SoloCheck(c, i, tr[n])
  {
    if n > 0 {
      SoloValPath(c, i, tr, n - 1);
      assert MovesAlone(i, tr[n - 1], tr[n]);
      var k, d: nat :| ValEnabled(tr[n - 1], i, k, d) && tr[n] == ValMove(tr[n - 1], i, k, d);
      SoloValStep(c, i, tr[n - 1], k, d);
    }
  }

  lemma WholeReadset(c: Config, i: nat)
    ensures var readset := ReadsetOf(At(c.table, i));
            BlamedFor(c, i, readset.Keys) == BlamedIndices(c.table, i, readset) &&
            (Stand(c, i, readset.Keys) <==> ReadsetStands(c.table, c.parent, i, readset))
  {
    var readset := ReadsetOf(At(c.table, i));
    assert (map k | k in readset.Keys && k in readset :: readset[k]) == readset;
  }

  lemma CheckedIsRevalidated(c: Config, i: nat, t: Task, s: Slot, w: ValStage)
    requires i < |c.tasks| && Checkable(c.tasks[i]) && Checking(c, i, t, s, w) && (ValOver(w) || w.VReset?)
    ensures t == Revalidate(c, i).tasks[i] && s == At(Revalidate(c, i).table, i)
    ensures w.VReset? <==> Reruns(c, i)
  {
    hide BlamedFor, BlamedIndices, Stand, ReadsetStands;
    var s0 := At(c.table, i);
    WholeReadset(c, i);
    NoReadsetStands(c, i);
    assert ListedKeys(s0) == {} ==> s0.row + EstimatedRow(c.tasks[i].incarnation, ListedKeys(s0)) == s0.row;
  }

  lemma NoReadsetStands(c: Config, i: nat)
    ensures At(c.table, i).readset.None? ==> ReadsetStands(c.table, c.parent, i, ReadsetOf(At(c.table, i)))
  {
  }

  /** The moves of one worker that checks a task, up to its verdict, are Revalidate of that task. */
  lemma RevalidateInOneGo(c: Config, i: nat, tr: seq<ValState>)
    requires |tr| > 0 && i < |c.tasks| && Checkable(c.tasks[i]) && tr[0].c == c
    requires |tr[0].stages| == |c.tasks| && tr[0].stages[i].VIdle?
    requires forall m :: 0 <= m < |tr| - 1 ==> MovesAlone(i, tr[m], tr[m + 1])
    requires |tr[|tr| - 1].stages| > i && (ValOver(tr[|tr| - 1].stages[i]) || tr[|tr| - 1].stages[i].VReset?)
    ensures SameConfig(tr[|tr| - 1].c, Revalidate(c, i))
    ensures tr[|tr| - 1].stages[i].VReset? <==> Reruns(c, i)
  {
    hide MovesAlone, Revalidate, Reruns, Checking;
    assert SoloCheck(c, i, tr[0]) by {
      IdleChecks(c, i);
    }
    SoloValPath(c, i, tr, |tr| - 1);
    var y := tr[|tr| - 1];
    CheckedIsRevalidated(c, i, y.c.tasks[i], At(y.c.table, i), y.stages[i]);
    RevalidateTouchesOne(c, i);
    assert y.c.tasks == Revalidate(c, i).tasks;
  }

  lemma IdleChecks(c: Config, i: nat)
    requires i < |c.tasks|
    ensures Checking(c, i, c.tasks[i], At(c.table, i), VIdle)
  {
  }

  /* Tasks that are not checked. */

  /** Where the worker of a task that is not checked stands: the task and the store are as they were. */
  ghost predicate Deciding(c: Config, i: nat, w: ValStage)
    requires i < |c.tasks|
  {
    var t0 := c.tasks[i];
    match w
    case VIdle => true
    case VDeps(deps, invalid) =>
      t0.status == Waiting && !invalid && deps <= t0.deps &&
      forall d :: d in t0.deps - deps ==> d < |c.tasks| && c.tasks[d].status == Validated
    case VReset =>
      t0.status == Aborted || t0.status == Pending ||
      (t0.status == Waiting && forall d :: d in t0.deps ==> d < |c.tasks| && c.tasks[d].status == Validated)
    case VWaiting =>
      t0.status == Waiting && exists d :: d in t0.deps && !(d < |c.tasks| && c.tasks[d].status == Validated)
    case _ => false
  }

  ghost predicate SoloDecision(c: Config, i: nat, y: ValState) {
    y.c == c && i < |c.tasks| == |y.stages| && Deciding(c, i, y.stages[i])
  }

  lemma SoloDecisionStep(c: Config, i: nat, y: ValState, k: StorageKey, d: nat)
    requires SoloDecision(c, i, y) && ValEnabled(y, i, k, d) && !Checkable(c.tasks[i]) && !y.stages[i].VReset?
    ensures SoloDecision(c, i, ValMove(y, i, k, d))
  {
    match y.stages[i]
    case VIdle =>
    case VDeps(deps, _) =>
      var mine := c.tasks[i].deps;
      if deps == {} {
        assert mine - deps == mine;
      } else if IsValidated(c.tasks, d) {
        assert mine - (deps - {d}) == (mine - deps) + {d};
      } else {
        assert d in mine && !(d < |c.tasks| && c.tasks[d].status == Validated);
      }
    case _ =>
  }

  lemma {:induction false} SoloDecisionPath(c: Config, i: nat, tr: seq<ValState>, n: nat)
    requires n < |tr| && SoloDecision(c, i, tr[0]) && !Checkable(c.tasks[i])
    requires forall m :: 0 <= m < |tr| - 1 ==> MovesAlone(i, tr[m], tr[m + 1])
    ensures SoloDecision(c, i, tr[n])
  {
    if n > 0 {
      SoloDecisionPath(c, i, tr, n - 1);
      assert MovesAlone(i, tr[n - 1], tr[n]);
      var k, d: nat :|
        ValEnabled(tr[n - 1], i, k, d) && !tr[n - 1].stages[i].VReset? && tr[n] == ValMove(tr[n - 1], i, k, d);
      SoloDecisionStep(c, i, tr[n - 1], k, d);
    }
  }

  /** The moves of one worker of a task that is aborted, pending or waiting, up to its decision, change
      nothing. It decides to run the task again if and only if the task is aborted or pending, or waits
      for validated tasks only, and this is the answer of shouldRerun. */
  lemma DecisionInOneGo(c: Config, i: nat, tr: seq<ValState>)
    requires |tr| > 0 && i < |c.tasks| && !Checkable(c.tasks[i]) && tr[0].c == c
    requires |tr[0].stages| == |c.tasks| && tr[0].stages[i].VIdle?
    requires forall m :: 0 <= m < |tr| - 1 ==> MovesAlone(i, tr[m], tr[m + 1])
    requires |tr[|tr| - 1].stages| > i && (ValOver(tr[|tr| - 1].stages[i]) || tr[|tr| - 1].stages[i].VReset?)
    ensures tr[|tr| - 1].c == c
    ensures tr[|tr| - 1].stages[i].VReset? <==> Reruns(c, i)
    ensures Reruns(c, i) <==>
            c.tasks[i].status == Aborted || c.tasks[i].status == Pending ||
            (c.tasks[i].status == Waiting &&
             forall d :: d in c.tasks[i].deps ==> d < |c.tasks| && c.tasks[d].status == Validated)
  {
    SoloDecisionPath(c, i, tr, |tr| - 1);
  }
}
