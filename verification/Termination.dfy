/** Both phases end, whatever the interleaving: every move of a worker uses up work. */
module Termination {
  import opened Storage
  import opened Programs
  import opened Table
  import opened Sessions
  import opened Protocol
  import opened ExecutePhase
  import opened ValidatePhase

  function Sum(s: seq<nat>): nat {
    if s == [] then 0 else s[0] + Sum(s[1..])
  }

  lemma {:induction false} SumUpdate(s: seq<nat>, i: nat, v: nat)
    requires i < |s|
    ensures Sum(s[i := v]) == Sum(s) - s[i] + v
  {
    if i > 0 {
      assert s[i := v][1..] == s[1..][i - 1 := v];
      SumUpdate(s[1..], i - 1, v);
    } else {
      assert s[i := v][1..] == s[1..];
    }
  }

  lemma SubsetSize<T>(a: set<T>, b: set<T>)
    requires a <= b
    ensures |a| <= |b|
  {
    assert b == a + (b - a);
  }

  /** The number of accesses that a program still makes. */
  function StepsLeft(p: Program, s: State, readset: ReadSet, writeset: WriteSet): nat
    decreases p
  {
    match p
    case Done(_) => 0
    case Fail => 0
    case Write(k, v, next) => 1 + StepsLeft(next, s, readset, writeset[k := v])
    case Read(k, _, _) =>
      1 + StepsLeft(AfterRead(p, Seen(s, readset, writeset, k)), s, Recorded(s, readset, writeset, k), writeset)
  }

  function RunWork(rest: Program, parent: State, slot: Slot, s: Session): nat {
    3 + StepsLeft(rest, parent, s.readset, s.writeset) + |ListedKeys(slot)| +
    |Run(rest, parent, s.readset, s.writeset).writeset.Keys|
  }

  /** The moves that a worker of executeAll has at most left. */
  function ExecWork(p: Program, parent: State, slot: Slot, w: ExecStage): nat {
    match w
    case EIdle => 1 + RunWork(p, parent, slot, NEW_SESSION)
    case ERun(rest, s) => RunWork(rest, parent, slot, s)
    case ERemove(stale, s) => 2 + |stale| + |s.writeset.Keys|
    case EWrite(todo, s) => 1 + |todo|
    case EDone => 0
  }

  function ExecWorks(block: seq<Program>, x: ExecState): seq<nat>
    requires |block| == |x.stages|
  {
    seq(|block|, i requires 0 <= i < |block| => ExecWork(block[i], x.c.parent, At(x.c.table, i), x.stages[i]))
  }

  lemma ExecWorkShrinks(block: seq<Program>, x: ExecState, i: nat, k: StorageKey)
    requires |block| == |x.stages| && ExecEnabled(x, i, k)
    requires x.stages[i].EWrite? ==> x.stages[i].todo <= x.stages[i].session.writeset.Keys
    ensures var y := ExecMove(block, x, i, k);
            ExecWork(block[i], y.c.parent, At(y.c.table, i), y.stages[i]) <
            ExecWork(block[i], x.c.parent, At(x.c.table, i), x.stages[i])
  {
    match x.stages[i]
    case ERun(_, _) => ExecRunShrinks(block, x, i, k);
    case _ =>
  }

  lemma ExecRunShrinks(block: seq<Program>, x: ExecState, i: nat, k: StorageKey)
    requires |block| == |x.stages| && ExecEnabled(x, i, k) && x.stages[i].ERun?
    ensures var y := ExecMove(block, x, i, k);
            ExecWork(block[i], y.c.parent, At(y.c.table, i), y.stages[i]) <
            ExecWork(block[i], x.c.parent, At(x.c.table, i), x.stages[i])
  {
    var s := x.stages[i].session;
    match x.stages[i].rest
    case Done(_) =>
      var listed := ListedKeys(At(x.c.table, i));
      SubsetSize(listed - s.writeset.Keys, listed);
    case Fail =>
    case Write(_, _, _) =>
    case Read(_, _, _) =>
  }

  /** Every enabled move of executeAll leaves strictly less work. */
  lemma ExecMoveUsesWork(block: seq<Program>, base: Config, scheduled: set<nat>, x: ExecState, i: nat, k: StorageKey)
    requires ExecReady(block, base, scheduled) && ExecInv(block, base, scheduled, x) && ExecEnabled(x, i, k)
    ensures Sum(ExecWorks(block, ExecMove(block, x, i, k))) < Sum(ExecWorks(block, x))
  {
    var y := ExecMove(block, x, i, k);
    assert ExecLocal(block[i], i, base.parent, base.tasks[i], At(base.table, i),
                     x.c.tasks[i], At(x.c.table, i), x.stages[i]);
    ExecWorkShrinks(block, x, i, k);
    ExecMoveTouches(block, x, i, k);
    var works := ExecWorks(block, x);
    SumUpdate(works, i, ExecWork(block[i], y.c.parent, At(y.c.table, i), y.stages[i]));
    assert ExecWorks(block, y) == works[i := ExecWork(block[i], y.c.parent, At(y.c.table, i), y.stages[i])];
  }

  /** Moving on from a path gives a longer path with less work left. */
  lemma ExecPathGrows(block: seq<Program>, base: Config, scheduled: set<nat>, tr: seq<ExecState>, i: nat, k: StorageKey)
    requires ExecReady(block, base, scheduled) && ExecPath(block, base, scheduled, tr)
    requires |block| == |tr[|tr| - 1].stages| && ExecEnabled(tr[|tr| - 1], i, k)
    ensures var y := ExecMove(block, tr[|tr| - 1], i, k);
            ExecPath(block, base, scheduled, tr + [y]) && |block| == |y.stages| &&
            Sum(ExecWorks(block, y)) < Sum(ExecWorks(block, tr[|tr| - 1]))
  {
    var x := tr[|tr| - 1];
    var y := ExecMove(block, x, i, k);
    ExecTraceInv(block, base, scheduled, tr, |tr| - 1);
    ExecMoveUsesWork(block, base, scheduled, x, i, k);
    assert ExecMoves(block, x, y);
  }

  lemma ExecPathStep(block: seq<Program>, base: Config, scheduled: set<nat>, tr: seq<ExecState>, y: ExecState)
    requires ExecReady(block, base, scheduled) && ExecPath(block, base, scheduled, tr)
    requires ExecMoves(block, tr[|tr| - 1], y)
    ensures |block| == |tr[|tr| - 1].stages| == |y.stages|
    ensures Sum(ExecWorks(block, y)) < Sum(ExecWorks(block, tr[|tr| - 1]))
  {
    var x := tr[|tr| - 1];
    var i: nat, k :| |block| == |x.stages| && ExecEnabled(x, i, k) && y == ExecMove(block, x, i, k);
    ExecPathGrows(block, base, scheduled, tr, i, k);
  }

  /** No run of executeAll has more moves than the work it starts with. */
  lemma {:induction false} ExecuteAllEnds(block: seq<Program>, base: Config, scheduled: set<nat>, tr: seq<ExecState>)
    requires ExecReady(block, base, scheduled) && ExecPath(block, base, scheduled, tr)
    ensures |tr[0].stages| == |tr[|tr| - 1].stages| == |block|
    ensures |tr| - 1 + Sum(ExecWorks(block, tr[|tr| - 1])) <= Sum(ExecWorks(block, tr[0]))
    decreases |tr|
  {
    if |tr| > 1 {
      var front := tr[..|tr| - 1];
      assert ExecMoves(block, front[|front| - 1], tr[|tr| - 1]);
      ExecuteAllEnds(block, base, scheduled, front);
      ExecPathStep(block, base, scheduled, front, tr[|tr| - 1]);
    }
  }

  /** The moves that a worker of validateAll has at most left. */
  function ValWork(t: Task, slot: Slot, v: ValStage): nat {
    match v
    case VIdle => 7 + 2 * |ReadsetOf(slot).Keys| + |ListedKeys(slot)| + |t.deps|
    case VCheck(keys, _, conflicts) => 6 + 2 * |keys| + |conflicts| + |ListedKeys(slot)| + |t.deps|
    case VInvalidate(cells, blamed) => 4 + |cells| + |blamed| + |t.deps|
    case VDeps(deps, _) => 2 + |deps|
    case VBlocked => 1
    case VReset => 1
    case _ => 0
  }

  function ValWorks(y: ValState): seq<nat>
    requires |y.c.tasks| == |y.stages|
  {
    seq(|y.stages|, i requires 0 <= i < |y.stages| => ValWork(y.c.tasks[i], At(y.c.table, i), y.stages[i]))
  }

  lemma UnionSize<T>(a: set<T>, b: set<T>)
    ensures |a + b| <= |a| + |b|
  {
    assert a + b == a + (b - a);
    SubsetSize(b - a, b);
  }

  lemma CheckOneShrinks(t: Table, parent: State, i: nat, k: StorageKey, values: seq<Hash>, v: ValStage)
    requires v.VCheck?
    ensures var w := CheckOne(t, parent, i, k, values, v);
            w.VCheck? && w.keys == v.keys - {k} && |w.conflicts| <= |v.conflicts| + 1
  {
    var hit := Scan(t, i, k);
    if hit.Some? {
      UnionSize(v.conflicts, {hit.value});
    }
  }

  lemma ValCheckShrinks(y: ValState, i: nat, k: StorageKey, d: nat)
    requires ValEnabled(y, i, k, d) && y.stages[i].VCheck?
    ensures var z := ValMove(y, i, k, d);
            ValWork(z.c.tasks[i], At(z.c.table, i), z.stages[i]) < ValWork(y.c.tasks[i], At(y.c.table, i), y.stages[i])
  {
    var slot := At(y.c.table, i);
    var values := if k in ReadsetOf(slot) then ReadsetOf(slot)[k] else [];
    CheckOneShrinks(y.c.table, y.c.parent, i, k, values, y.stages[i]);
  }

  lemma ValWorkShrinks(y: ValState, i: nat, k: StorageKey, d: nat)
    requires ValEnabled(y, i, k, d)
    ensures var z := ValMove(y, i, k, d);
            ValWork(z.c.tasks[i], At(z.c.table, i), z.stages[i]) < ValWork(y.c.tasks[i], At(y.c.table, i), y.stages[i])
  {
    match y.stages[i]
    case VCheck(keys, valid, conflicts) => ValCheckShrinks(y, i, k, d);
    case VInvalidate(cells, blamed) =>
      UnionSize(y.c.tasks[i].deps, blamed);
    case _ =>
  }

  /** Every enabled move of validateAll leaves strictly less work. */
  lemma ValMoveUsesWork(y: ValState, i: nat, k: StorageKey, d: nat)
    requires |y.c.tasks| == |y.stages| && ValEnabled(y, i, k, d)
    ensures |ValMove(y, i, k, d).c.tasks| == |ValMove(y, i, k, d).stages|
    ensures Sum(ValWorks(ValMove(y, i, k, d))) < Sum(ValWorks(y))
  {
    var z := ValMove(y, i, k, d);
    ValWorkShrinks(y, i, k, d);
    ValMoveTouches(y, i, k, d);
    var works := ValWorks(y);
    SumUpdate(works, i, ValWork(z.c.tasks[i], At(z.c.table, i), z.stages[i]));
    assert ValWorks(z) == works[i := ValWork(z.c.tasks[i], At(z.c.table, i), z.stages[i])];
  }

  lemma ValPathGrows(base: Config, start: nat, tr: seq<ValState>, i: nat, k: StorageKey, d: nat)
    requires ValPath(base, start, tr) && |tr[|tr| - 1].c.tasks| == |tr[|tr| - 1].stages|
    requires ValEnabled(tr[|tr| - 1], i, k, d)
    ensures var z := ValMove(tr[|tr| - 1], i, k, d);
            ValPath(base, start, tr + [z]) && |z.c.tasks| == |z.stages| &&
            Sum(ValWorks(z)) < Sum(ValWorks(tr[|tr| - 1]))
  {
    ValMoveUsesWork(tr[|tr| - 1], i, k, d);
    assert ValMoves(tr[|tr| - 1], ValMove(tr[|tr| - 1], i, k, d));
  }

  /** No run of validateAll has more moves than the work it starts with. */
  lemma {:induction false} ValidateAllEnds(base: Config, start: nat, tr: seq<ValState>)
    requires ValPath(base, start, tr)
    ensures |tr[|tr| - 1].c.tasks| == |tr[|tr| - 1].stages| && |tr[0].c.tasks| == |tr[0].stages|
    ensures |tr| - 1 + Sum(ValWorks(tr[|tr| - 1])) <= Sum(ValWorks(tr[0]))
    decreases |tr|
  {
    if |tr| > 1 {
      var n := |tr| - 2;
      ValidateAllEnds(base, start, tr[..n + 1]);
      assert ValMoves(tr[n], tr[n + 1]);
      var i: nat, k, d: nat :| ValEnabled(tr[n], i, k, d) && tr[n + 1] == ValMove(tr[n], i, k, d);
      ValMoveUsesWork(tr[n], i, k, d);
    }
  }
}
