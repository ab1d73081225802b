/** What validateAll establishes, for every interleaving of its workers: checks of one task race with
    the invalidations of others, and the validated prefix is sound nevertheless. */
module ValidatePhase {
  import opened Storage
  import opened Programs
  import opened Table
  import opened Protocol

  predicate Checkable(t: Task) {
    t.status.Executed? || t.status.Validated?
  }

  /** Task and slot record a finished run of the program over some parent state `q`. */
  ghost predicate RanOn(p: Program, q: State, t: Task, s: Slot) {
    var o := RunFresh(p, q);
    o.result.Some? && t.response == o.result &&
    s == Slot(WrittenRow(t.incarnation, o.writeset), Some(o.writeset.Keys), Some(o.readset))
  }

  /** The versions of a task were written by its current incarnation, and by an earlier one if the task is
      yet to run. */
  ghost predicate Dated(t: Task, s: Slot) {
    forall k :: k in s.row ==>
      if t.status.Pending? then s.row[k].incarnation < t.incarnation else s.row[k].incarnation == t.incarnation
  }

  /** The task and store state machine, for one task: an executed or validated task has its readset
      stored and only final versions of its current incarnation; any other task has no readset and
      only estimates. A pending task has no response, and a task waits on lower tasks only. */
  ghost predicate TaskOk(p: Program, i: nat, t: Task, s: Slot) {
    (forall d :: d in t.deps ==> d < i) && Supported(s) && Dated(t, s) && (t.status.Pending? ==> t.response.None?) &&
    if Checkable(t) then exists q: State :: RanOn(p, q, t, s)
    else s.readset.None? && OnlyEstimates(s.row)
  }

  ghost predicate AllTasksOk(block: seq<Program>, c: Config) {
    |block| == |c.tasks| &&
    forall i: nat :: i < |block| ==> TaskOk(block[i], i, c.tasks[i], At(c.table, i))
  }

  /** The slot of an invalidated task: no readset, and every version an estimate. */
  ghost predicate Demoted(s0: Slot, s: Slot) {
    s.readset.None? && s.keys == s0.keys && s.row.Keys == s0.row.Keys && OnlyEstimates(s.row) &&
    forall k :: k in s.row ==> s.row[k].incarnation == s0.row[k].incarnation
  }

  /** The phase neither adds nor removes versions, and changes them only to estimates of the same
      incarnation. */
  ghost predicate Faded(s0: Slot, s: Slot) {
    s.row.Keys == s0.row.Keys &&
    forall k :: k in s.row ==>
      s.row[k].incarnation == s0.row[k].incarnation && (s.row[k].estimate || s.row[k] == s0.row[k])
  }

  ghost predicate Below(ds: set<nat>, i: nat) {
    forall d :: d in ds ==> d < i
  }

  /** Where one worker stands, said about its own task and slot only. */
  ghost predicate ValLocal(i: nat, t0: Task, s0: Slot, t: Task, s: Slot, v: ValStage) {
    Below(t.deps, i) && t0.deps <= t.deps &&
    match v
    case VIdle => t == t0 && s == s0
    case VCheck(keys, valid, conflicts) =>
      Checkable(t0) && t == t0 && s == s0 && keys <= ReadsetOf(s0).Keys && Below(conflicts, i) &&
      (valid ==> conflicts == {}) && (!valid ==> keys != ReadsetOf(s0).Keys)
    case VInvalidate(cells, blamed) =>
      Checkable(t0) && t == t0 && s.readset == s0.readset && s.keys == s0.keys &&
      Faded(s0, s) && cells <= s0.row.Keys && Below(blamed, i) && ReadsetOf(s0) != map[] &&
      forall k :: k in s0.row.Keys - cells ==> s.row[k].estimate
    case VDeps(deps, invalid) =>
      deps <= t.deps && t == t0.(deps := t.deps) && Demoted(s0, s) &&
      (if invalid then Checkable(t0) && ReadsetOf(s0) != map[] else t0.status.Waiting?)
    case VBlocked => t == t0.(deps := t.deps) && Demoted(s0, s) && Checkable(t0) && ReadsetOf(s0) != map[]
    case VReset => t == t0.(deps := t.deps) && Demoted(s0, s) && (Checkable(t0) ==> ReadsetOf(s0) != map[])
    case VUnsettled => false
    case VValidated => Checkable(t0) && t == t0.(status := Validated) && s == s0
    case VWaiting =>
      (Checkable(t0) || t0.status.Waiting?) && t == t0.(status := Waiting, deps := t.deps) && Demoted(s0, s) &&
      (Checkable(t0) ==> ReadsetOf(s0) != map[])
    case VRerun =>
      t == ResetTask(t0.(deps := t.deps)) && Demoted(s0, s) && (Checkable(t0) ==> ReadsetOf(s0) != map[])
  }

  /** A worker that has not touched the store: its row is still the one the phase started with. */
  predicate Clean(v: ValStage) {
    v.VIdle? || v.VCheck? || v.VValidated?
  }

  ghost predicate Stand(base: Config, j: nat, keys: set<StorageKey>) {
    var readset := ReadsetOf(At(base.table, j));
    forall k :: k in keys && k in readset ==> KeyStands(base.table, base.parent, j, k, readset[k])
  }

  /** What the stage of a check says about the store the phase started with. */
  ghost predicate Verdict(base: Config, j: nat, v: ValStage)
    requires j < |base.tasks|
  {
    var keys := ReadsetOf(At(base.table, j)).Keys;
    match v
    case VIdle => true
    case VCheck(left, valid, _) => valid <==> Stand(base, j, keys - left)
    case VValidated => Stand(base, j, keys)
    case _ => Checkable(base.tasks[j]) ==> !Stand(base, j, keys)
  }

  /** What a check has passed so far stands in the store the phase started with. */
  ghost predicate Passed(base: Config, j: nat, v: ValStage) {
    var keys := ReadsetOf(At(base.table, j)).Keys;
    (v.VCheck? && v.valid ==> Stand(base, j, keys - v.keys)) && (v.VValidated? ==> Stand(base, j, keys))
  }

  ghost predicate CleanBetween(stages: seq<ValStage>, start: nat, j: nat)
    requires j <= |stages|
  {
    forall i :: start <= i < j ==> Clean(stages[i])
  }

  ghost predicate Emission(y: ValState) {
    (forall p, q :: 0 <= p < q < |y.emitted| ==> y.emitted[p] != y.emitted[q]) &&
    (forall i :: i in y.emitted ==> i < |y.stages|) &&
    (forall i: nat :: i < |y.stages| ==> (i in y.emitted <==> y.stages[i].VRerun?))
  }

  ghost predicate ValInv(base: Config, start: nat, y: ValState) {
    start < |base.tasks| == |y.c.tasks| == |y.stages| && y.c.parent == base.parent &&
    (forall i: nat :: i < start ==>
       y.stages[i].VValidated? && y.c.tasks[i] == base.tasks[i] && base.tasks[i].status.Validated?) &&
    (forall i: nat :: i < start || i >= |base.tasks| ==> At(y.c.table, i) == At(base.table, i)) &&
    (forall i: nat :: start <= i < |base.tasks| ==>
       ValLocal(i, base.tasks[i], At(base.table, i), y.c.tasks[i], At(y.c.table, i), y.stages[i])) &&
    (forall j: nat :: start <= j < |base.tasks| && CleanBetween(y.stages, start, j) ==>
       Verdict(base, j, y.stages[j])) &&
    (forall j: nat :: start <= j < |base.tasks| ==> Passed(base, j, y.stages[j])) &&
    !y.stages[start].VWaiting? && !y.stages[start].VBlocked? && Emission(y)
  }

  ghost predicate ValReady(block: seq<Program>, base: Config, start: nat) {
    AllTasksOk(block, base) && start == FirstNonValidated(base.tasks) && start < |base.tasks|
  }

  lemma ValStartInv(block: seq<Program>, base: Config, start: nat)
    requires ValReady(block, base, start)
    ensures ValInv(base, start, ValStart(base, start))
  {
    forall i: nat | start <= i < |base.tasks|
      ensures ValLocal(i, base.tasks[i], At(base.table, i), base.tasks[i], At(base.table, i), VIdle)
    {
      assert TaskOk(block[i], i, base.tasks[i], At(base.table, i));
    }
  }

  /** The part of TaskOk that a single move relies on. */
  ghost predicate SlotShape(i: nat, t: Task, s: Slot) {
    Below(t.deps, i) && Supported(s) && Dated(t, s) &&
    if Checkable(t) then s.readset.Some? else s.readset.None? && OnlyEstimates(s.row)
  }

  lemma ValMoveLocal(y: ValState, i: nat, k: StorageKey, d: nat, t0: Task, s0: Slot)
    requires ValEnabled(y, i, k, d) && SlotShape(i, t0, s0)
    requires ValLocal(i, t0, s0, y.c.tasks[i], At(y.c.table, i), y.stages[i])
    ensures var z := ValMove(y, i, k, d);
            ValLocal(i, t0, s0, z.c.tasks[i], At(z.c.table, i), z.stages[i])
  {
    match y.stages[i]
    case VIdle =>
    case VCheck(keys, valid, conflicts) => ValCheckLocal(y, i, k, d, t0, s0);
    case VInvalidate(cells, blamed) =>
    case VDeps(deps, invalid) =>
    case VBlocked =>
    case VReset =>
    case _ =>
  }

  lemma ValCheckLocal(y: ValState, i: nat, k: StorageKey, d: nat, t0: Task, s0: Slot)
    requires ValEnabled(y, i, k, d) && SlotShape(i, t0, s0) && y.stages[i].VCheck?
    requires ValLocal(i, t0, s0, y.c.tasks[i], At(y.c.table, i), y.stages[i])
    ensures var z := ValMove(y, i, k, d);
            ValLocal(i, t0, s0, z.c.tasks[i], At(z.c.table, i), z.stages[i])
  {
    var readset := ReadsetOf(s0);
    if y.stages[i].keys == {} && !y.stages[i].valid {
      assert readset.Keys != {};
    }
  }

  lemma ValStepLocal(block: seq<Program>, base: Config, start: nat, y: ValState, i: nat, k: StorageKey, d: nat)
    requires ValReady(block, base, start) && ValInv(base, start, y) && ValEnabled(y, i, k, d)
    ensures start <= i
    ensures var z := ValMove(y, i, k, d);
            ValLocal(i, base.tasks[i], At(base.table, i), z.c.tasks[i], At(z.c.table, i), z.stages[i])
  {
    assert start <= i;
    assert TaskOk(block[i], i, base.tasks[i], At(base.table, i));
    ValMoveLocal(y, i, k, d, base.tasks[i], At(base.table, i));
  }

  /** Below a clean stretch, the store a check looks at is the store the phase started with. */
  lemma CleanLookup(base: Config, start: nat, y: ValState, j: nat, k: StorageKey, values: seq<Hash>)
    requires ValInv(base, start, y) && start <= j < |base.tasks| && CleanBetween(y.stages, start, j)
    ensures KeyStands(y.c.table, y.c.parent, j, k, values) == KeyStands(base.table, base.parent, j, k, values)
  {
    forall m: nat | m < j ensures At(y.c.table, m).row == At(base.table, m).row {
      if m >= start {
        assert Clean(y.stages[m]);
        assert ValLocal(m, base.tasks[m], At(base.table, m), y.c.tasks[m], At(y.c.table, m), y.stages[m]);
      }
    }
    ScanFrame(y.c.table, base.table, j, k);
  }

  /** A version that lets a check pass was there, as it is, when the phase started: a lookup always finds
      the same writer, and what has changed since is an estimate. */
  lemma PassedLookup(base: Config, start: nat, y: ValState, j: nat, k: StorageKey, values: seq<Hash>)
    requires ValInv(base, start, y) && start <= j < |base.tasks|
    requires KeyStands(y.c.table, y.c.parent, j, k, values)
    ensures KeyStands(base.table, base.parent, j, k, values)
  {
    forall m: nat | m < j ensures Faded(At(base.table, m), At(y.c.table, m)) {
      if m >= start {
        assert ValLocal(m, base.tasks[m], At(base.table, m), y.c.tasks[m], At(y.c.table, m), y.stages[m]);
      }
    }
    ScanFrame(y.c.table, base.table, j, k);
    if Scan(base.table, j, k).Some? {
      assert Faded(At(base.table, Scan(base.table, j, k).value), At(y.c.table, Scan(base.table, j, k).value));
    }
  }

  lemma ValStepPassed(block: seq<Program>, base: Config, start: nat, y: ValState, i: nat, k: StorageKey, d: nat)
    requires ValReady(block, base, start) && ValInv(base, start, y) && ValEnabled(y, i, k, d) && start <= i
    ensures Passed(base, i, ValMove(y, i, k, d).stages[i])
  {
    var s0, v := At(base.table, i), y.stages[i];
    assert ValLocal(i, base.tasks[i], s0, y.c.tasks[i], At(y.c.table, i), v);
    assert Passed(base, i, v);
    match v
    case VCheck(keys, valid, conflicts) =>
      var readset := ReadsetOf(s0);
      if keys != {} {
        if valid && KeyStands(y.c.table, y.c.parent, i, k, readset[k]) {
          PassedLookup(base, start, y, i, k, readset[k]);
        }
        assert readset.Keys - (keys - {k}) == (readset.Keys - keys) + {k};
      } else {
        assert readset.Keys - keys == readset.Keys;
      }
    case VIdle =>
      assert ReadsetOf(s0).Keys - ReadsetOf(s0).Keys == {};
    case _ =>
  }

  lemma ValStepVerdict(block: seq<Program>, base: Config, start: nat, y: ValState, i: nat, k: StorageKey, d: nat)
    requires ValReady(block, base, start) && ValInv(base, start, y) && ValEnabled(y, i, k, d) && start <= i
    requires CleanBetween(y.stages, start, i)
    ensures Verdict(base, i, ValMove(y, i, k, d).stages[i])
  {
    var s0, v := At(base.table, i), y.stages[i];
    assert ValLocal(i, base.tasks[i], s0, y.c.tasks[i], At(y.c.table, i), v);
    assert Verdict(base, i, v);
    match v
    case VCheck(keys, valid, conflicts) =>
      var readset := ReadsetOf(s0);
      if keys != {} {
        CleanLookup(base, start, y, i, k, readset[k]);
        assert readset.Keys - (keys - {k}) == (readset.Keys - keys) + {k};
      } else {
        assert readset.Keys - keys == readset.Keys;
      }
    case VIdle =>
      assert ReadsetOf(s0).Keys - ReadsetOf(s0).Keys == {};
    case _ =>
  }

  /** A move of worker `i` touches its own task, slot and stage only. */
  ghost predicate TouchesOnly(y: ValState, z: ValState, i: nat) {
    |z.c.tasks| == |y.c.tasks| && |z.stages| == |y.stages| && z.c.parent == y.c.parent &&
    (forall j: nat :: j < |y.c.tasks| && j != i ==> z.c.tasks[j] == y.c.tasks[j]) &&
    (forall j: nat :: j < |y.stages| && j != i ==> z.stages[j] == y.stages[j]) &&
    (forall j: nat :: j != i ==> At(z.c.table, j) == At(y.c.table, j))
  }

  lemma ValMoveTouches(y: ValState, i: nat, k: StorageKey, d: nat)
    requires ValEnabled(y, i, k, d)
    ensures TouchesOnly(y, ValMove(y, i, k, d), i)
    ensures Clean(ValMove(y, i, k, d).stages[i]) ==> Clean(y.stages[i])
  {
  }

  /** The lowest task of the phase never ends up waiting: all it can wait for is validated. */
  lemma StartNeverWaits(base: Config, start: nat, y: ValState, k: StorageKey, d: nat)
    requires ValInv(base, start, y) && ValEnabled(y, start, k, d)
    ensures !ValMove(y, start, k, d).stages[start].VWaiting? && !ValMove(y, start, k, d).stages[start].VBlocked?
  {
    assert ValLocal(start, base.tasks[start], At(base.table, start),
                    y.c.tasks[start], At(y.c.table, start), y.stages[start]);
    if y.stages[start].VDeps? && y.stages[start].deps != {} {
      assert IsValidated(y.c.tasks, d);
    }
  }

  lemma VerdictsKept(block: seq<Program>, base: Config, start: nat, y: ValState, i: nat, k: StorageKey, d: nat, j: nat)
    requires ValReady(block, base, start) && ValInv(base, start, y) && ValEnabled(y, i, k, d)
    requires start <= i && start <= j < |base.tasks| && CleanBetween(ValMove(y, i, k, d).stages, start, j)
    ensures Verdict(base, j, ValMove(y, i, k, d).stages[j])
  {
    var z := ValMove(y, i, k, d);
    ValMoveTouches(y, i, k, d);
    forall m | start <= m < j ensures Clean(y.stages[m]) {
      assert Clean(z.stages[m]);
    }
    if j == i {
      ValStepVerdict(block, base, start, y, i, k, d);
    } else {
      assert Verdict(base, j, y.stages[j]);
    }
  }

  /** One move of any worker keeps the phase invariant. */
  lemma ValStepInv(block: seq<Program>, base: Config, start: nat, y: ValState, i: nat, k: StorageKey, d: nat)
    requires ValReady(block, base, start) && ValInv(base, start, y) && ValEnabled(y, i, k, d)
    ensures ValInv(base, start, ValMove(y, i, k, d))
  {
    var z := ValMove(y, i, k, d);
    ValStepLocal(block, base, start, y, i, k, d);
    ValMoveTouches(y, i, k, d);
    ValStepEmission(y, i, k, d);
    ValStepPassed(block, base, start, y, i, k, d);
    if i == start {
      StartNeverWaits(base, start, y, k, d);
    }
    forall j: nat | start <= j < |base.tasks| && CleanBetween(z.stages, start, j)
      ensures Verdict(base, j, z.stages[j])
    {
      VerdictsKept(block, base, start, y, i, k, d, j);
    }
    ValInvFromParts(base, start, y, z, i);
  }

  lemma ValInvFromParts(base: Config, start: nat, y: ValState, z: ValState, i: nat)
    requires ValInv(base, start, y) && TouchesOnly(y, z, i) && start <= i < |base.tasks|
    requires ValLocal(i, base.tasks[i], At(base.table, i), z.c.tasks[i], At(z.c.table, i), z.stages[i])
    requires forall j: nat :: start <= j < |base.tasks| && CleanBetween(z.stages, start, j) ==>
               Verdict(base, j, z.stages[j])
    requires Passed(base, i, z.stages[i])
    requires Emission(z) && (i == start ==> !z.stages[start].VWaiting? && !z.stages[start].VBlocked?)
    ensures ValInv(base, start, z)
  {
  }

  lemma ValStepEmission(y: ValState, i: nat, k: StorageKey, d: nat)
    requires ValEnabled(y, i, k, d) && Emission(y)
    ensures Emission(ValMove(y, i, k, d))
  {
    var z := ValMove(y, i, k, d);
    if y.stages[i].VReset? {
      assert z.emitted == y.emitted + [i];
    } else {
      assert z.emitted == y.emitted;
    }
  }

  /* Whole phases. */

  ghost predicate ValMoves(y: ValState, z: ValState) {
    exists i: nat, k, d: nat :: ValEnabled(y, i, k, d) && z == ValMove(y, i, k, d)
  }

  /** Any sequence of enabled moves from the start of the phase. */
  ghost predicate ValPath(base: Config, start: nat, tr: seq<ValState>) {
    |tr| > 0 && tr[0] == ValStart(base, start) &&
    forall n :: 0 <= n < |tr| - 1 ==> ValMoves(tr[n], tr[n + 1])
  }

  /** A run of the phase: a path up to the point where all workers are done. */
  ghost predicate ValTrace(base: Config, start: nat, tr: seq<ValState>) {
    ValPath(base, start, tr) && ValFinished(tr[|tr| - 1])
  }

  lemma {:induction false} ValTraceInv(block: seq<Program>, base: Config, start: nat, tr: seq<ValState>, n: nat)
    requires ValReady(block, base, start) && ValPath(base, start, tr) && n < |tr|
    ensures ValInv(base, start, tr[n])
  {
    if n == 0 {
      ValStartInv(block, base, start);
    } else {
      ValTraceInv(block, base, start, tr, n - 1);
      assert ValMoves(tr[n - 1], tr[n]);
      var i: nat, k, d: nat :| ValEnabled(tr[n - 1], i, k, d) && tr[n] == ValMove(tr[n - 1], i, k, d);
      ValStepInv(block, base, start, tr[n - 1], i, k, d);
    }
  }

  /** Every task is pending, waiting or validated, and the list returned is the pending ones, each once. */
  ghost predicate Classified(c: Config, emitted: seq<nat>) {
    (forall i: nat :: i < |c.tasks| ==>
       c.tasks[i].status.Pending? || c.tasks[i].status.Waiting? || c.tasks[i].status.Validated?) &&
    (forall p, q :: 0 <= p < q < |emitted| ==> emitted[p] != emitted[q]) &&
    (forall i: nat :: i in emitted <==> i < |c.tasks| && c.tasks[i].status.Pending?)
  }

  /** The fate of one task in the phase: validated and left alone, or demoted to wait or to rerun. */
  ghost predicate ValResult(t0: Task, s0: Slot, t: Task, s: Slot) {
    if t.status.Validated? then Checkable(t0) && t == t0.(status := Validated) && s == s0
    else
      Demoted(s0, s) && (Checkable(t0) ==> ReadsetOf(s0) != map[]) && t0.deps <= t.deps &&
      (t.status.Waiting? ==> Checkable(t0) || t0.status.Waiting?) &&
      (t == t0.(status := Waiting, deps := t.deps) || t == ResetTask(t0.(deps := t.deps)))
  }

  /** The outcome of a whole validateAll, whatever the interleaving. The readsets of the validated tasks
      stood in the store that the phase started with, and those of the validated prefix stand in the
      store it ends with. */
  ghost predicate ValPhase(base: Config, start: nat, c: Config, emitted: seq<nat>) {
    start < |base.tasks| == |c.tasks| && c.parent == base.parent && Classified(c, emitted) &&
    (forall i: nat :: i < start ==> c.tasks[i] == base.tasks[i] && base.tasks[i].status.Validated?) &&
    (forall i: nat :: i < start || i >= |base.tasks| ==> At(c.table, i) == At(base.table, i)) &&
    (forall i: nat :: start <= i < |base.tasks| ==>
       Below(c.tasks[i].deps, i) && ValResult(base.tasks[i], At(base.table, i), c.tasks[i], At(c.table, i))) &&
    (forall j: nat :: start <= j < FirstNonValidated(c.tasks) ==>
       ReadsetStands(c.table, c.parent, j, ReadsetOf(At(c.table, j)))) &&
    (forall j: nat :: start <= j < |c.tasks| && c.tasks[j].status.Validated? ==>
       ReadsetStands(base.table, base.parent, j, ReadsetOf(At(base.table, j)))) &&
    !c.tasks[start].status.Waiting? &&
    (c.tasks[start].status.Validated? <==>
       Checkable(base.tasks[start]) && ReadsetStands(base.table, base.parent, start, ReadsetOf(At(base.table, start))))
  }

  lemma FinalClassification(base: Config, start: nat, y: ValState)
    requires ValInv(base, start, y) && ValFinished(y)
    ensures Classified(y.c, y.emitted)
    ensures forall i: nat :: start <= i < |base.tasks| ==>
              Below(y.c.tasks[i].deps, i) && ValResult(base.tasks[i], At(base.table, i), y.c.tasks[i], At(y.c.table, i))
    ensures forall i: nat :: i < |base.tasks| && y.c.tasks[i].status.Validated? ==> y.stages[i].VValidated?
  {
    forall i: nat | i < |base.tasks|
      ensures y.c.tasks[i].status.Pending? <==> y.stages[i].VRerun?
      ensures y.c.tasks[i].status.Validated? <==> y.stages[i].VValidated?
      ensures y.c.tasks[i].status.Pending? || y.c.tasks[i].status.Waiting? || y.c.tasks[i].status.Validated?
    {
      if i >= start {
        assert ValLocal(i, base.tasks[i], At(base.table, i), y.c.tasks[i], At(y.c.table, i), y.stages[i]);
      }
    }
  }

  /** A check passed while others were invalidating still stands, if everything below ends validated. */
  lemma PrefixStands(base: Config, start: nat, y: ValState, j: nat)
    requires ValInv(base, start, y) && ValFinished(y)
    requires start <= j < |base.tasks| && forall i: nat :: i <= j ==> y.c.tasks[i].status.Validated?
    ensures ReadsetStands(y.c.table, y.c.parent, j, ReadsetOf(At(y.c.table, j)))
  {
    FinalClassification(base, start, y);
    var readset := ReadsetOf(At(base.table, j));
    assert ValResult(base.tasks[j], At(base.table, j), y.c.tasks[j], At(y.c.table, j));
    assert CleanBetween(y.stages, start, j);
    assert Verdict(base, j, y.stages[j]);
    forall k | k in readset ensures KeyStands(y.c.table, y.c.parent, j, k, readset[k]) {
      CleanLookup(base, start, y, j, k, readset[k]);
    }
  }

  lemma ValFinal(block: seq<Program>, base: Config, start: nat, y: ValState)
    requires ValReady(block, base, start) && ValInv(base, start, y) && ValFinished(y)
    ensures ValPhase(base, start, y.c, y.emitted)
  {
    FinalClassification(base, start, y);
    forall j: nat | start <= j < FirstNonValidated(y.c.tasks)
      ensures ReadsetStands(y.c.table, y.c.parent, j, ReadsetOf(At(y.c.table, j)))
    {
      PrefixStands(base, start, y, j);
    }
    forall j: nat | start <= j < |base.tasks| && y.c.tasks[j].status.Validated?
      ensures ReadsetStands(base.table, base.parent, j, ReadsetOf(At(base.table, j)))
    {
      assert Passed(base, j, y.stages[j]);
      StandIsReadsetStands(base, j);
    }
    assert CleanBetween(y.stages, start, start);
    assert Verdict(base, start, y.stages[start]);
    assert ValLocal(start, base.tasks[start], At(base.table, start),
                    y.c.tasks[start], At(y.c.table, start), y.stages[start]);
    StandIsReadsetStands(base, start);
  }

  lemma StandIsReadsetStands(base: Config, j: nat)
    ensures Stand(base, j, ReadsetOf(At(base.table, j)).Keys) <==>
            ReadsetStands(base.table, base.parent, j, ReadsetOf(At(base.table, j)))
  {
  }

  lemma ValidateAllOutcome(block: seq<Program>, base: Config, start: nat, tr: seq<ValState>)
    requires ValReady(block, base, start) && ValTrace(base, start, tr)
    ensures ValPhase(base, start, tr[|tr| - 1].c, tr[|tr| - 1].emitted)
  {
    ValTraceInv(block, base, start, tr, |tr| - 1);
    ValFinal(block, base, start, tr[|tr| - 1]);
  }
}
