/** The scheduler (scheduler/scheduler.go) as it runs: task objects, the store and the state are updated
    in place, and inside a phase any unfinished worker may make the next atomic access. What it did is
    recorded in ghost traces, so that every theorem about runs applies to every execution. */
module Scheduler {
  import opened Storage
  import opened Programs
  import opened Table
  import opened Sessions
  import opened MultiVersionStore
  import opened Tracer
  import opened Protocol
  import opened ExecutePhase
  import opened ValidatePhase
  import opened Rounds
  import opened Liveness
  import opened Steady
  import opened Synchronous
  import opened Fallback
  import opened Termination

  class DeliverTxTask {
    const absoluteIndex: nat
    var status: Status
    var dependencies: set<nat>
    var incarnation: nat
    var response: Option<Response>
    ghost var runs: nat

    constructor (index: nat)
      ensures absoluteIndex == index && View() == NEW_TASK
    {
      absoluteIndex := index;
      status, dependencies, incarnation, response, runs := Pending, {}, 0, None, 0;
    }

    ghost function View(): Task
      reads this
    {
      Task(status, dependencies, incarnation, response, runs)
    }

    method AppendDependencies(deps: set<nat>)
      modifies this
      ensures View() == old(View()).(deps := old(dependencies) + deps)
    {
      dependencies := dependencies + deps;
    }

    method SetStatus(s: Status)
      modifies this
      ensures View() == old(View()).(status := s)
    {
      status := s;
    }

    /** Reset and Increment, as they are always called together. */
    method ResetAndIncrement()
      modifies this
      ensures View() == ResetTask(old(View()))
    {
      status := Pending;
      response := None;
      incarnation := incarnation + 1;
    }

    /** The end of a run that was not refused: executed with its response, or aborted on a dependency. */
    method Finish(result: Response, abort: Option<nat>, ghost s: Session)
      requires s.abort == abort
      modifies this
      ensures View() == FinishedTask(old(View()), s, result)
    {
      if abort.Some? {
        status := Aborted;
        dependencies := dependencies + {abort.value};
      } else {
        status := Executed;
        response := Some(result);
      }
      runs := runs + 1;
    }

    method Refuse()
      modifies this
      ensures View() == old(View()).(runs := old(runs) + 1)
    {
      runs := runs + 1;
    }
  }

  class BlockScheduler {
    const block: seq<Program>
    const multiVersionStores: Store
    const state: StateDB
    var allTasks: seq<DeliverTxTask>
    var synchronous: bool

    constructor (block: seq<Program>, state: StateDB)
      ensures this.block == block && this.state == state && multiVersionStores.parentStore == state
      ensures fresh(multiVersionStores) && fresh(multiVersionStores.items)
      ensures multiVersionStores.Valid() && multiVersionStores.table == map[] && !synchronous && allTasks == []
    {
      this.block, this.state := block, state;
      multiVersionStores := new Store(state);
      allTasks, synchronous := [], false;
    }

    /** The objects hold exactly the configuration `c`. */
    ghost predicate Shows(c: Config)
      reads this`allTasks, allTasks, multiVersionStores, multiVersionStores.items, state
    {
      multiVersionStores.Valid() && multiVersionStores.parentStore == state &&
      multiVersionStores.table == c.table && state.kv == c.parent &&
      |allTasks| == |c.tasks| == |block| &&
      forall i :: 0 <= i < |allTasks| ==> allTasks[i].absoluteIndex == i && allTasks[i].View() == c.tasks[i]
    }

    /* One atomic access of one worker. */

    /** The next move of worker `i` of executeAll. Its tracer session travels in the stage. */
    method ExecWorker(i: nat, stage: ExecStage, ghost x: ExecState) returns (next: ExecStage, ghost k: StorageKey)
      requires Shows(x.c) && i < |x.stages| == |block| && x.stages[i] == stage && !stage.EDone?
      requires stage.EWrite? ==> stage.todo <= stage.session.writeset.Keys
      modifies allTasks, multiVersionStores, multiVersionStores.items
      ensures ExecEnabled(x, i, k) && Shows(ExecMove(block, x, i, k).c)
      ensures ExecMove(block, x, i, k).stages == x.stages[i := next]
      ensures old(multiVersionStores.items) <= multiVersionStores.items
      ensures fresh(multiVersionStores.items - old(multiVersionStores.items))
    {
      hide Store.Valid;
      k := StorageKey(0, 0);
      match stage
      case EIdle => next := ERun(block[i], NEW_SESSION);
      case ERun(rest, s) => next := ExecAccess(i, rest, s, x);
      case ERemove(stale, s) =>
        if stale == {} {
          next := EWrite(s.writeset.Keys, s);
        } else {
          var key :| key in stale;
          k := key;
          multiVersionStores.RemoveVersion(i, key);
          next := ERemove(stale - {key}, s);
        }
      case EWrite(todo, s) =>
        if todo == {} {
          multiVersionStores.StoreKeys(i, s.writeset.Keys);
          if s.abort.None? {
            multiVersionStores.SetReadset(i, s.readset);
          }
          next := EDone;
        } else {
          var key :| key in todo;
          k := key;
          if s.abort.None? {
            multiVersionStores.WriteVersion(i, allTasks[i].incarnation, key, s.writeset[key]);
          } else {
            multiVersionStores.WriteEstimate(i, allTasks[i].incarnation, key);
          }
          next := EWrite(todo - {key}, s);
        }
    }

    /** The next access of a running program, or what follows its end. */
    method ExecAccess(i: nat, rest: Program, s: Session, ghost x: ExecState) returns (next: ExecStage)
      requires Shows(x.c) && i < |x.stages| == |block| && x.stages[i] == ERun(rest, s)
      modifies allTasks, multiVersionStores
      ensures Shows(ExecMove(block, x, i, StorageKey(0, 0)).c)
      ensures ExecMove(block, x, i, StorageKey(0, 0)).stages == x.stages[i := next]
      ensures multiVersionStores.items == old(multiVersionStores.items)
    {
      match rest
      case Done(r) =>
        var keys := multiVersionStores.TakeKeys(i);
        allTasks[i].Finish(r, s.abort, s);
        next := ERemove((set k | k in keys) - s.writeset.Keys, s);
      case Fail =>
        allTasks[i].Refuse();
        next := EDone;
      case Write(k, v, rest') => next := ERun(rest', SessionWrite(s, k, v));
      case Read(k, _, _) =>
        var value := if k in s.writeset then s.writeset[k]
                     else if k in s.readset && s.readset[k] != [] then s.readset[k][0]
                     else state.GetValue(k);
        var after := s;
        if !(k in s.writeset || (k in s.readset && s.readset[k] != [])) {
          var latest := multiVersionStores.GetLatestBeforeIndex(i, k);
          var blocked := latest.Some? && latest.value.IsEstimate();
          after := Session(s.readset[k := [value]], s.writeset,
                           if s.abort.None? && blocked then Some(latest.value.index) else s.abort);
        }
        next := ERun(AfterRead(rest, value), after);
    }

    /** Any worker that is not done makes its next access. */
    method ExecTurn(i: nat, stages: seq<ExecStage>, ghost base: Config, ghost scheduled: set<nat>,
                    ghost tr: seq<ExecState>)
      returns (now: seq<ExecStage>, ghost longer: seq<ExecState>)
      requires ExecReady(block, base, scheduled) && ExecPath(block, base, scheduled, tr)
      requires Shows(Latest(tr).c) && stages == Latest(tr).stages && i < |stages| == |block| && !stages[i].EDone?
      modifies allTasks, multiVersionStores, multiVersionStores.items
      ensures ExecPath(block, base, scheduled, longer) && Shows(Latest(longer).c)
      ensures now == Latest(longer).stages && |now| == |block|
      ensures Sum(ExecWorks(block, Latest(longer))) < Sum(ExecWorks(block, Latest(tr)))
      ensures old(multiVersionStores.items) <= multiVersionStores.items
      ensures fresh(multiVersionStores.items - old(multiVersionStores.items))
    {
      ExecStageSound(block, base, scheduled, tr, i);
      ghost var k;
      var next: ExecStage;
      next, k := ExecWorker(i, stages[i], Latest(tr));
      ExecPathGrows(block, base, scheduled, tr, i, k);
      now := stages[i := next];
      longer := tr + [ExecMove(block, Latest(tr), i, k)];
    }

    /** executeAll: the scheduled workers move one access at a time, in any order, until all are done.
        The trace says in which order they did. */
    method ExecuteAll(scheduled: seq<nat>, ghost base: Config) returns (ghost tr: seq<ExecState>)
      requires Shows(base) && ExecReady(block, base, ScheduledSet(scheduled))
      modifies allTasks, multiVersionStores, multiVersionStores.items
      ensures ExecTrace(block, base, ScheduledSet(scheduled), tr) && Shows(Latest(tr).c)
      ensures old(multiVersionStores.items) <= multiVersionStores.items
      ensures fresh(multiVersionStores.items - old(multiVersionStores.items))
    {
      ghost var chosen := ScheduledSet(scheduled);
      var stages: seq<ExecStage> := seq(|allTasks|, i => if i in scheduled then EIdle else EDone);
      tr := [ExecStart(base, chosen)];
      assert stages == tr[0].stages;
      var live := LiveExec(stages);
      while live != {}
        invariant ExecPath(block, base, chosen, tr) && Shows(Latest(tr).c)
        invariant stages == Latest(tr).stages && |stages| == |block| && live == LiveExec(stages)
        invariant old(multiVersionStores.items) <= multiVersionStores.items
        invariant fresh(multiVersionStores.items - old(multiVersionStores.items))
        decreases Sum(ExecWorks(block, Latest(tr)))
      {
        var i :| i in live;
        stages, tr := ExecTurn(i, stages, base, chosen, tr);
        live := LiveExec(stages);
      }
      NobodyLive(Latest(tr));
    }

    /** The next move of worker `i` of validateAll. */
    method ValWorker(i: nat, stage: ValStage, ghost y: ValState)
      returns (next: ValStage, ghost k: StorageKey, ghost d: nat)
      requires Shows(y.c) && i < |y.stages| == |block| && y.stages[i] == stage && !ValOver(stage)
      modifies allTasks, multiVersionStores, multiVersionStores.items
      ensures ValEnabled(y, i, k, d) && Shows(ValMove(y, i, k, d).c)
      ensures ValMove(y, i, k, d).stages == y.stages[i := next]
      ensures ValMove(y, i, k, d).emitted == if next.VRerun? then y.emitted + [i] else y.emitted
      ensures old(multiVersionStores.items) <= multiVersionStores.items
      ensures fresh(multiVersionStores.items - old(multiVersionStores.items))
    {
      hide Store.Valid;
      k, d := StorageKey(0, 0), 0;
      match stage
      case VIdle =>
        var stored := multiVersionStores.GetReadset(i);
        var readset := if stored.Some? then stored.value else map[];
        next := match allTasks[i].status
          case Aborted => VReset
          case Pending => VReset
          case Executed => VCheck(readset.Keys, true, {})
          case Validated => VCheck(readset.Keys, true, {})
          case Waiting => VDeps(allTasks[i].dependencies, false);
      case VCheck(keys, valid, conflicts) =>
        if keys != {} {
          var key :| key in keys;
          k := key;
          next := CheckKey(i, key, keys, valid, conflicts, y);
        } else if !valid {
          var listed := multiVersionStores.GetWritesetKeys(i);
          next := VInvalidate(listed, conflicts);
        } else if conflicts == {} {
          allTasks[i].SetStatus(Validated);
          next := VValidated;
        } else {
          next := VUnsettled;
        }
      case VInvalidate(cells, blamed) =>
        if cells != {} {
          var key :| key in cells;
          k := key;
          multiVersionStores.WriteEstimate(i, allTasks[i].incarnation, key);
          next := VInvalidate(cells - {key}, blamed);
        } else {
          multiVersionStores.ClearReadset(i);
          allTasks[i].AppendDependencies(blamed);
          next := VDeps(allTasks[i].dependencies, true);
        }
      case VDeps(deps, invalid) =>
        if deps == {} {
          next := VReset;
        } else {
          var dep :| dep in deps;
          d := dep;
          if dep < |allTasks| && allTasks[dep].status.Validated? {
            next := VDeps(deps - {dep}, invalid);
          } else {
            next := if invalid then VBlocked else VWaiting;
          }
        }
      case VBlocked =>
        allTasks[i].SetStatus(Waiting);
        next := VWaiting;
      case VReset =>
        allTasks[i].ResetAndIncrement();
        next := VRerun;
    }

    /** One lookup of a check, which only reads. */
    method CheckKey(i: nat, key: StorageKey, keys: set<StorageKey>, valid: bool, conflicts: set<nat>, ghost y: ValState)
      returns (next: ValStage)
      requires Shows(y.c) && i < |block|
      ensures var slot := At(y.c.table, i);
              next == CheckOne(y.c.table, y.c.parent, i, key,
                               if key in ReadsetOf(slot) then ReadsetOf(slot)[key] else [],
                               VCheck(keys, valid, conflicts))
    {
      var readset := multiVersionStores.GetReadset(i);
      var values := if readset.Some? && key in readset.value then readset.value[key] else [];
      var ok, conflict := multiVersionStores.CheckKey(i, key, values);
      next := VCheck(keys - {key}, valid && ok,
                     if conflict.Some? then conflicts + {conflict.value} else conflicts);
    }

    method FindFirstNonValidated(ghost c: Config) returns (idx: nat)
      requires Shows(c)
      ensures idx == FirstNonValidated(c.tasks)
    {
      idx := 0;
      while idx < |allTasks| && allTasks[idx].status.Validated?
        invariant idx <= |allTasks|
        invariant forall j :: 0 <= j < idx ==> c.tasks[j].status.Validated?
      {
        assert allTasks[idx].View() == c.tasks[idx];
        idx := idx + 1;
      }
      assert idx < |allTasks| ==> allTasks[idx].View() == c.tasks[idx];
    }

    /** Any worker of validateAll that is not done makes its next access. */
    method ValTurn(i: nat, stages: seq<ValStage>, emitted: seq<nat>, ghost base: Config, ghost start: nat,
                   ghost tr: seq<ValState>)
      returns (now: seq<ValStage>, sent: seq<nat>, ghost longer: seq<ValState>)
      requires ValPath(base, start, tr) && Shows(Latest(tr).c)
      requires stages == Latest(tr).stages && emitted == Latest(tr).emitted
      requires i < |stages| == |block| && !ValOver(stages[i])
      modifies allTasks, multiVersionStores, multiVersionStores.items
      ensures ValPath(base, start, longer) && Shows(Latest(longer).c)
      ensures now == Latest(longer).stages && sent == Latest(longer).emitted && |now| == |block|
      ensures Sum(ValWorks(Latest(longer))) < Sum(ValWorks(Latest(tr)))
      ensures old(multiVersionStores.items) <= multiVersionStores.items
      ensures fresh(multiVersionStores.items - old(multiVersionStores.items))
    {
      ghost var k, d;
      var next: ValStage;
      next, k, d := ValWorker(i, stages[i], Latest(tr));
      ValPathGrows(base, start, tr, i, k, d);
      now := stages[i := next];
      sent := if next.VRerun? then emitted + [i] else emitted;
      longer := tr + [ValMove(Latest(tr), i, k, d)];
    }

    /** validateAll: every task from the first one that is not validated gets a worker; what they send on
        the result channel is the list to execute next. */
    method ValidateAll(ghost base: Config) returns (toExecute: seq<nat>, ghost tr: seq<ValState>)
      requires Shows(base)
      modifies allTasks, multiVersionStores, multiVersionStores.items
      ensures FirstNonValidated(base.tasks) == |base.tasks| ==> toExecute == [] && Shows(base)
      ensures FirstNonValidated(base.tasks) < |base.tasks| ==>
                ValTrace(base, FirstNonValidated(base.tasks), tr) && Shows(Latest(tr).c) &&
                toExecute == Latest(tr).emitted
      ensures old(multiVersionStores.items) <= multiVersionStores.items
      ensures fresh(multiVersionStores.items - old(multiVersionStores.items))
    {
      var startIdx := FindFirstNonValidated(base);
      tr := [ValStart(base, startIdx)];
      toExecute := [];
      if startIdx == |allTasks| {
        return;
      }
      var stages: seq<ValStage> := seq(|allTasks|, i => if i < startIdx then VValidated else VIdle);
      assert stages == tr[0].stages;
      var live := LiveVal(stages);
      while live != {}
        invariant ValPath(base, startIdx, tr) && Shows(Latest(tr).c)
        invariant stages == Latest(tr).stages && |stages| == |block| && live == LiveVal(stages)
        invariant toExecute == Latest(tr).emitted
        invariant old(multiVersionStores.items) <= multiVersionStores.items
        invariant fresh(multiVersionStores.items - old(multiVersionStores.items))
        decreases Sum(ValWorks(Latest(tr)))
      {
        var i :| i in live;
        stages, toExecute, tr := ValTurn(i, stages, toExecute, base, startIdx, tr);
        live := LiveVal(stages);
      }
      NobodyValidates(Latest(tr));
    }

    /* Synchronous mode. */

    method DependenciesValidated(deps: set<nat>, ghost c: Config) returns (all: bool)
      requires Shows(c)
      ensures all <==> AllValidated(c.tasks, deps)
      ensures all <==> forall d :: d in deps ==> d < |c.tasks| && c.tasks[d].status == Validated
    {
      var todo := deps;
      while todo != {}
        invariant todo <= deps && AllValidated(c.tasks, deps - todo)
        decreases todo
      {
        var d :| d in todo;
        if d >= |allTasks| || !allTasks[d].status.Validated? {
          assert !IsValidated(c.tasks, d) by {
            assert d < |allTasks| ==> allTasks[d].View() == c.tasks[d];
          }
          return false;
        }
        assert IsValidated(c.tasks, d) by {
          assert allTasks[d].View() == c.tasks[d];
        }
        todo := todo - {d};
      }
      assert deps - todo == deps;
      all := true;
    }

    /** shouldRerun with nobody else moving: an executed or validated task is checked, and demoted if its
        readset does not stand; the answer is whether the task is to run again now. */
    method ShouldRerun(i: nat, ghost c: Config) returns (rerun: bool)
      requires Shows(c) && i < |block|
      modifies allTasks, multiVersionStores, multiVersionStores.items
      ensures Shows(if Checkable(c.tasks[i]) then Revalidate(c, i) else c)
      ensures rerun == Reruns(c, i)
      ensures c.tasks[i].status == Aborted || c.tasks[i].status == Pending ==> rerun
      ensures c.tasks[i].status == Waiting ==>
                (rerun <==> forall d :: d in c.tasks[i].deps ==> d < |c.tasks| && c.tasks[d].status == Validated)
      ensures old(multiVersionStores.items) <= multiVersionStores.items
      ensures fresh(multiVersionStores.items - old(multiVersionStores.items))
    {
      hide Shows, ReadsetStands, BlamedIndices;
      ShowsSize(c);
      var status := StatusOf(i, c);
      if status.Aborted? || status.Pending? {
        return true;
      }
      if status.Waiting? {
        rerun := OwnDependenciesValidated(i, c);
        return;
      }
      var valid, blamed := FindConflicts(i, c);
      if valid {
        SetTaskStatus(i, Validated, c);
        return false;
      }
      ghost var mid := DemotedConfig(c, i, blamed);
      InvalidateTask(i, blamed, c);
      rerun := OwnDependenciesValidated(i, mid);
      assert AllValidated(mid.tasks, mid.tasks[i].deps) <==> AllValidated(c.tasks, mid.tasks[i].deps) by {
        assert forall d :: IsValidated(mid.tasks, d) <==> IsValidated(c.tasks, d);
      }
      if !rerun {
        SetTaskStatus(i, Waiting, mid);
        assert Revalidate(c, i).tasks == mid.tasks[i := mid.tasks[i].(status := Waiting)];
      } else {
        assert Revalidate(c, i).tasks == mid.tasks;
      }
    }

    /** findConflicts: the check of the store, with the conflicts as a set. */
    method FindConflicts(i: nat, ghost c: Config) returns (valid: bool, blamed: set<nat>)
      requires Shows(c) && i < |block|
      ensures var readset := At(c.table, i).readset;
              if valid then readset.None? || ReadsetStands(c.table, c.parent, i, readset.value)
              else readset.Some? && !ReadsetStands(c.table, c.parent, i, readset.value) &&
                   blamed == BlamedIndices(c.table, i, readset.value)
    {
      var conflicts;
      valid, conflicts := multiVersionStores.CheckReadsetAtIndex(i);
      blamed := set j | j in conflicts;
    }

    method SetTaskStatus(i: nat, status: Status, ghost c: Config)
      requires Shows(c) && i < |block|
      modifies allTasks
      ensures Shows(c.(tasks := c.tasks[i := c.tasks[i].(status := status)]))
    {
      assert allTasks[i].View() == c.tasks[i];
      allTasks[i].SetStatus(status);
    }

    method StatusOf(i: nat, ghost c: Config) returns (status: Status)
      requires Shows(c) && i < |block|
      ensures i < |c.tasks| && status == c.tasks[i].status
    {
      assert allTasks[i].View() == c.tasks[i];
      status := allTasks[i].status;
    }

    method OwnDependenciesValidated(i: nat, ghost c: Config) returns (all: bool)
      requires Shows(c) && i < |block|
      ensures i < |c.tasks| && (all <==> AllValidated(c.tasks, c.tasks[i].deps))
    {
      assert allTasks[i].View() == c.tasks[i];
      all := DependenciesValidated(allTasks[i].dependencies, c);
    }

    /** Invalidates the versions of a task and makes it depend on those to blame. */
    method InvalidateTask(i: nat, blamed: set<nat>, ghost c: Config)
      requires Shows(c) && i < |block|
      modifies allTasks, multiVersionStores, multiVersionStores.items
      ensures Shows(DemotedConfig(c, i, blamed))
      ensures old(multiVersionStores.items) <= multiVersionStores.items
      ensures fresh(multiVersionStores.items - old(multiVersionStores.items))
    {
      assert allTasks[i].View() == c.tasks[i];
      multiVersionStores.InvalidateWriteset(i, allTasks[i].incarnation);
      multiVersionStores.ClearReadset(i);
      allTasks[i].AppendDependencies(blamed);
    }

    /** Prepares a tracer and runs the transaction through it. */
    method PrepareAndDeliver(i: nat, ghost c: Config) returns (tracer: AccessListTracer, result: Option<Response>)
      requires Shows(c) && i < |block|
      ensures fresh(tracer) && tracer.multiVersionStore == multiVersionStores && i < |c.tasks|
      ensures tracer.transactionIndex == i && tracer.incarnation == c.tasks[i].incarnation
      ensures tracer.Recording() == SessionRun(block[i], c.table, c.parent, i, NEW_SESSION)
      ensures result == RunFresh(block[i], c.parent).result
    {
      hide SessionRun, Run, BlockedByEstimate;
      assert allTasks[i].View() == c.tasks[i];
      tracer := new AccessListTracer(multiVersionStores, i, allTasks[i].incarnation);
      result := tracer.Deliver(block[i]);
    }

    method RefuseTask(i: nat, ghost c: Config)
      requires Shows(c) && i < |block|
      modifies allTasks
      ensures i < |c.tasks| && Shows(c.(tasks := c.tasks[i := c.tasks[i].(runs := c.tasks[i].runs + 1)]))
    {
      assert allTasks[i].View() == c.tasks[i];
      allTasks[i].Refuse();
    }

    /** Prepares a tracer, runs the transaction through it and publishes what it recorded. */
    method RunTask(i: nat, ghost c: Config)
      requires Shows(c) && i < |block|
      modifies allTasks, multiVersionStores, multiVersionStores.items
      ensures Shows(ExecuteAlone(block, c, i))
      ensures old(multiVersionStores.items) <= multiVersionStores.items
      ensures fresh(multiVersionStores.items - old(multiVersionStores.items))
    {
      hide Shows, SessionRun, Run, PublishedConfig;
      ShowsSize(c);
      var tracer, result := PrepareAndDeliver(i, c);
      if result.None? {
        RefuseTask(i, c);
      } else {
        PublishRun(i, tracer, result.value, c);
      }
    }

    method PublishRun(i: nat, tracer: AccessListTracer, result: Response, ghost c: Config)
      requires Shows(c) && i < |block| && tracer.multiVersionStore == multiVersionStores
      requires tracer.transactionIndex == i && tracer.incarnation == c.tasks[i].incarnation
      modifies allTasks, multiVersionStores, multiVersionStores.items
      ensures Shows(PublishedConfig(c, i, tracer.Recording(), result))
      ensures old(multiVersionStores.items) <= multiVersionStores.items
      ensures fresh(multiVersionStores.items - old(multiVersionStores.items))
    {
      assert allTasks[i].View() == c.tasks[i];
      ghost var s := tracer.Recording();
      allTasks[i].Finish(result, tracer.aborted, s);
      assert multiVersionStores.Valid() && tracer.TableSeen() == c.table && tracer.Recording() == s;
      if tracer.aborted.Some? {
        tracer.WriteEstimatesToMultiVersionStore();
      } else {
        tracer.WriteToMultiVersionStore();
      }
    }

    method ExecuteTaskSync(i: nat, ghost c: Config)
      requires Shows(c) && i < |block|
      modifies allTasks, multiVersionStores, multiVersionStores.items
      ensures Shows(ExecuteSync(block, c, i))
      ensures old(multiVersionStores.items) <= multiVersionStores.items
      ensures fresh(multiVersionStores.items - old(multiVersionStores.items))
    {
      hide Shows, Revalidate, ExecuteAlone;
      ShowsSize(c);
      var status := StatusOf(i, c);
      ghost var c1 := c;
      if status.Validated? {
        var _ := ShouldRerun(i, c);
        c1 := Revalidate(c, i);
        status := StatusOf(i, c1);
        if status.Validated? {
          return;
        }
      }
      ghost var c2 := c1;
      if !status.Pending? {
        ResetAt(i, c1);
        c2 := c1.(tasks := c1.tasks[i := ResetTask(c1.tasks[i])]);
      }
      RunTask(i, c2);
    }

    method ResetAt(i: nat, ghost c: Config)
      requires Shows(c) && i < |block|
      modifies allTasks
      ensures i < |c.tasks| && Shows(c.(tasks := c.tasks[i := ResetTask(c.tasks[i])]))
    {
      assert allTasks[i].View() == c.tasks[i];
      allTasks[i].ResetAndIncrement();
    }

    method ProcessAllSync(startIdx: nat, ghost base: Config) returns (ghost tr: seq<Config>)
      requires Shows(base) && startIdx <= |block|
      modifies allTasks, multiVersionStores, multiVersionStores.items, state
      ensures SyncTrace(block, startIdx, tr) && tr[0] == base && Shows(Latest(tr))
      ensures old(multiVersionStores.items) <= multiVersionStores.items
      ensures fresh(multiVersionStores.items - old(multiVersionStores.items))
    {
      hide Shows;
      var lastStoreIdx := 0;
      tr := [base];
      for i := startIdx to |block|
        invariant |tr| == i - startIdx + 1 && tr[0] == base && Shows(Latest(tr))
        invariant lastStoreIdx == if i == startIdx then 0 else i - 1
        invariant SyncPath(block, startIdx, tr)
        invariant old(multiVersionStores.items) <= multiVersionStores.items
        invariant fresh(multiVersionStores.items - old(multiVersionStores.items))
      {
        ghost var d := SyncTurn(i, lastStoreIdx, startIdx, Latest(tr));
        SyncPathGrows(block, startIdx, tr, d);
        lastStoreIdx := i;
        tr := tr + [d];
      }
    }

    method SyncTurn(i: nat, lastStoreIdx: nat, ghost startIdx: nat, ghost c: Config) returns (ghost d: Config)
      requires Shows(c) && startIdx <= i < |block| && lastStoreIdx == if i == startIdx then 0 else i - 1
      modifies allTasks, multiVersionStores, multiVersionStores.items, state
      ensures SyncStep(block, startIdx, c, i, d) && Shows(d)
      ensures old(multiVersionStores.items) <= multiVersionStores.items
      ensures fresh(multiVersionStores.items - old(multiVersionStores.items))
    {
      FlushWindow(lastStoreIdx, i, c);
      ghost var p := state.kv;
      d := ExecuteSync(block, c.(parent := p), i);
      ExecuteTaskSync(i, c.(parent := p));
    }

    method FlushWindow(lastStoreIdx: nat, startIdx: nat, ghost c: Config)
      requires Shows(c)
      modifies state
      ensures Flushed(c.table, lastStoreIdx, startIdx, c.parent, state.kv) && Shows(c.(parent := state.kv))
    {
      multiVersionStores.WriteLatestToStoreUntil(lastStoreIdx, startIdx, state);
    }

    method FlushEverything(ghost c: Config)
      requires Shows(c)
      modifies state
      ensures FlushedAll(c.table, c.parent, state.kv) && Shows(c.(parent := state.kv))
    {
      multiVersionStores.WriteLatestToStore(state);
    }

    /* The round loop. */

    method ToTasks() returns (tasks: seq<DeliverTxTask>)
      ensures |tasks| == |block|
      ensures forall i :: 0 <= i < |tasks| ==>
                fresh(tasks[i]) && tasks[i].absoluteIndex == i && tasks[i].View() == NEW_TASK
    {
      tasks := [];
      for i := 0 to |block|
        invariant |tasks| == i
        invariant forall j :: 0 <= j < i ==>
                    fresh(tasks[j]) && tasks[j].absoluteIndex == j && tasks[j].View() == NEW_TASK
      {
        var task := new DeliverTxTask(i);
        tasks := tasks + [task];
      }
    }

    method PrepareTasks()
      requires multiVersionStores.Valid() && multiVersionStores.parentStore == state &&
               multiVersionStores.table == map[]
      modifies this`allTasks
      ensures fresh(allTasks) && Shows(InitialConfig(|block|, state.kv))
    {
      allTasks := ToTasks();
    }

    /** The flush at the start of a round, if the validated prefix has grown. */
    method FlushRound(lastStoreIdx: nat, ghost init: State, ghost a: LoopState)
      returns (flushedTo: nat, ghost f: LoopState)
      requires Shows(a.c) && LoopInv(block, init, a) && a.flushedTo == lastStoreIdx
      modifies state
      ensures FlushStep(a, f) && Shows(f.c) && f.flushedTo == flushedTo && f.scheduled == a.scheduled
      ensures ExecReady(block, f.c, ScheduledSet(a.scheduled))
    {
      var startIdx := FindFirstNonValidated(a.c);
      flushedTo := lastStoreIdx;
      if startIdx > lastStoreIdx {
        FlushWindow(lastStoreIdx, startIdx, a.c);
        flushedTo := startIdx;
      }
      f := LoopState(a.c.(parent := state.kv), a.scheduled, flushedTo, a.iterations);
      RoundIsReady(block, init, a, f);
    }

    /** One round: flush the newly validated prefix, execute, validate. */
    method RunRound(toExecute: seq<nat>, lastStoreIdx: nat, ghost init: State, ghost a: LoopState)
      returns (next: seq<nat>, flushedTo: nat, ghost r: Round)
      requires Shows(a.c) && LoopInv(block, init, a) && a.scheduled == toExecute && a.flushedTo == lastStoreIdx
      requires FirstNonValidated(a.c.tasks) < |a.c.tasks| && a.iterations < MAXIMUM_ITERATIONS
      modifies allTasks, multiVersionStores, multiVersionStores.items, state
      ensures Happens(block, r) && r.before == a && Shows(r.after.c)
      ensures r.after.scheduled == next && r.after.flushedTo == flushedTo
      ensures old(multiVersionStores.items) <= multiVersionStores.items
      ensures fresh(multiVersionStores.items - old(multiVersionStores.items))
    {
      hide Shows, LoopInv, FlushStep, ExecReady;
      ghost var f;
      flushedTo, f := FlushRound(lastStoreIdx, init, a);
      ghost var exec := ExecuteAll(toExecute, f.c);
      ghost var e, val := Latest(exec).c, [];
      next, val := ValidateAll(e);
      ghost var after := LoopState(if FirstNonValidated(e.tasks) == |e.tasks| then e else Latest(val).c,
                                   next, flushedTo, a.iterations + 1);
      r := Round(a, f, exec, val, after);
    }

    /** The loop of ProcessAll, which ends when all tasks are validated or ten rounds have passed. */
    method RunRounds(ghost init: State) returns (startIdx: nat, ghost run: seq<Round>)
      requires Shows(InitialConfig(|block|, init))
      modifies allTasks, multiVersionStores, multiVersionStores.items, state
      ensures ParallelRun(block, init, run) && Shows(RunEnd(block, init, run).c)
      ensures startIdx == FirstNonValidated(RunEnd(block, init, run).c.tasks)
      ensures startIdx == |block| == |RunEnd(block, init, run).c.tasks| || (startIdx < |block| && |run| == 10)
      ensures |run| <= 10
      ensures LoopInv(block, init, RunEnd(block, init, run))
      ensures old(multiVersionStores.items) <= multiVersionStores.items
      ensures fresh(multiVersionStores.items - old(multiVersionStores.items))
    {
      hide Shows, LoopInv, Happens;
      LoopStartInv(block, init);
      ghost var a := InitialLoop(block, init);
      ShowsSize(a.c);
      run := [];
      var toExecute: seq<nat> := seq(|block|, i => i);
      var lastStoreIdx, iterations := 0, 0;
      startIdx := FindFirstNonValidated(a.c);
      while startIdx < |allTasks| && iterations < MAXIMUM_ITERATIONS
        invariant ParallelRun(block, init, run) && RunEnd(block, init, run) == a && LoopInv(block, init, a)
        invariant Shows(a.c) && startIdx == FirstNonValidated(a.c.tasks) && |allTasks| == |a.c.tasks|
        invariant a.scheduled == toExecute && a.flushedTo == lastStoreIdx && a.iterations == iterations == |run|
        invariant iterations <= MAXIMUM_ITERATIONS
        invariant old(multiVersionStores.items) <= multiVersionStores.items
        invariant fresh(multiVersionStores.items - old(multiVersionStores.items))
        decreases MAXIMUM_ITERATIONS - iterations
      {
        ghost var r;
        toExecute, lastStoreIdx, r := RunRound(toExecute, lastStoreIdx, init, a);
        HappeningKeepsInv(block, init, r);
        assert Earlier(run + [r]) == run && Last(run + [r]) == r;
        run := run + [r];
        a := r.after;
        iterations := iterations + 1;
        startIdx := FindFirstNonValidated(a.c);
        ShowsSize(a.c);
      }
    }

    lemma ShowsSize(c: Config)
      requires Shows(c)
      ensures |allTasks| == |c.tasks| == |block|
    {
    }

    /** ProcessAll. When no fallback was needed, the responses and the final state are those of the serial
        execution, whatever the workers did in between. In any case what happened is a parallel run, and
        after it, if need be, the synchronous pass. The pass leaves every task as the serial execution does
        exactly if each of its steps ended serially, for which its condition suffices, and then responses
        and state are again the serial ones. Steady blocks of any length always come out serial, and blocks
        of at most five updating transactions never need the pass. */
    method ProcessAll() returns (responses: seq<Option<Response>>, ghost run: seq<Round>, ghost sync: seq<Config>)
      requires multiVersionStores.Valid() && multiVersionStores.parentStore == state
      requires multiVersionStores.table == map[] && !synchronous
      modifies this, multiVersionStores, multiVersionStores.items, state
      ensures ParallelRun(block, old(state.kv), run) && |responses| == |block|
      ensures !synchronous ==> SameState(state.kv, SerialState(block, old(state.kv), |block|))
      ensures !synchronous ==>
                forall j :: 0 <= j < |block| ==> responses[j] == SerialResult(block, old(state.kv), j)
      ensures !synchronous ==> FirstNonValidated(RunEnd(block, old(state.kv), run).c.tasks) == |block|
      ensures synchronous ==> FellBack(RunEnd(block, old(state.kv), run), sync) && |run| == 10
      ensures synchronous ==> FirstNonValidated(RunEnd(block, old(state.kv), run).c.tasks) < |block|
      ensures |sync| > 0 && |Latest(sync).tasks| == |block|
      ensures EndedPrefix(block, old(state.kv), Latest(sync), |block|) ==>
                SameState(state.kv, SerialState(block, old(state.kv), |block|)) &&
                forall j :: 0 <= j < |block| ==> responses[j] == SerialResult(block, old(state.kv), j)
      ensures synchronous ==>
                (EndedPrefix(block, old(state.kv), Latest(sync), |block|) <==>
                   PassEndsSerially(old(state.kv), RunEnd(block, old(state.kv), run), sync))
      ensures synchronous && PassStands(RunEnd(block, old(state.kv), run), sync) ==>
                EndedPrefix(block, old(state.kv), Latest(sync), |block|)
      ensures synchronous && (forall j: nat :: j < |block| ==> SerialResult(block, old(state.kv), j).Some?) ==>
                (EndedPrefix(block, old(state.kv), Latest(sync), |block|) <==>
                   PassStands(RunEnd(block, old(state.kv), run), sync))
      ensures SteadyBlock(block) ==>
                SameState(state.kv, SerialState(block, old(state.kv), |block|)) &&
                forall j :: 0 <= j < |block| ==> responses[j] == SerialResult(block, old(state.kv), j)
      ensures UpdatingBlock(block, old(state.kv)) && |block| <= 5 ==> !synchronous
      ensures forall j :: 0 <= j < |block| ==> responses[j] == Latest(sync).tasks[j].response
    {
      hide Shows, LoopInv, ParallelRun, StepsStand, StepsEndSerially, EndedPrefix, SteadyBlock, UpdatingBlock,
          SerialResult;
      ghost var init := state.kv;
      PrepareTasks();
      var startIdx;
      startIdx, run := RunRounds(init);
      ghost var a := RunEnd(block, init, run);
      ShowsSize(a.c);
      sync := [a.c];
      if startIdx < |allTasks| {
        synchronous := true;
        sync := ProcessAllSync(startIdx, a.c);
      }
      FlushEverything(Latest(sync));
      responses := CollectResponses(Latest(sync).(parent := state.kv));
      ShowsSize(Latest(sync).(parent := state.kv));
      if synchronous {
        if UpdatingBlock(block, init) && |block| <= 5 {
          UpdatingBlocksAdvance(block, init, run, |block|);
        }
        PassIsSerialIff(block, init, run, sync, state.kv);
        if SteadyBlock(block) {
          SteadyPassIsSerial(block, init, run, sync, state.kv);
        }
      } else {
        ValidatedIsSerial(block, init, a, state.kv);
      }
    }

    /** The condition for a serial pass held at each of its steps. */
    ghost predicate PassStands(a: LoopState, sync: seq<Config>) {
      FirstNonValidated(a.c.tasks) + |sync| == |block| + 1 && |sync| > 0 &&
      StepsStand(block, FirstNonValidated(a.c.tasks), sync, |sync| - 1)
    }

    /** Each of its steps ended as in the serial execution. */
    ghost predicate PassEndsSerially(init: State, a: LoopState, sync: seq<Config>) {
      FirstNonValidated(a.c.tasks) + |sync| == |block| + 1 && |sync| > 0 &&
      StepsEndSerially(block, init, FirstNonValidated(a.c.tasks), sync, |sync| - 1)
    }

    /** The state is what the synchronous pass and the final flush make of the configuration `a`. */
    ghost predicate FellBack(a: LoopState, sync: seq<Config>)
      reads state
    {
      |a.c.tasks| == |block| && SyncTrace(block, FirstNonValidated(a.c.tasks), sync) && sync[0] == a.c &&
      FlushedAll(Latest(sync).table, Latest(sync).parent, state.kv)
    }

    method CollectResponses(ghost c: Config) returns (responses: seq<Option<Response>>)
      requires Shows(c)
      ensures |responses| == |c.tasks| && forall i :: 0 <= i < |c.tasks| ==> responses[i] == c.tasks[i].response
    {
      responses := [];
      for i := 0 to |allTasks|
        invariant |responses| == i && forall j :: 0 <= j < i ==> responses[j] == c.tasks[j].response
      {
        assert allTasks[i].View() == c.tasks[i];
        responses := responses + [allTasks[i].response];
      }
    }
  }

  function LiveVal(stages: seq<ValStage>): set<nat> {
    set i: nat | i < |stages| && !ValOver(stages[i])
  }

  lemma NobodyValidates(y: ValState)
    requires LiveVal(y.stages) == {}
    ensures ValFinished(y)
  {
    forall i: nat | i < |y.stages| ensures ValOver(y.stages[i]) {
      assert i !in LiveVal(y.stages);
    }
  }

  function DemotedConfig(c: Config, i: nat, blamed: set<nat>): Config
    requires i < |c.tasks|
  {
    Config(c.tasks[i := c.tasks[i].(deps := c.tasks[i].deps + blamed)],
           WithReadset(Invalidate(c.table, i, c.tasks[i].incarnation), i, None), c.parent)
  }

  function LiveExec(stages: seq<ExecStage>): set<nat> {
    set i: nat | i < |stages| && !stages[i].EDone?
  }

  lemma NobodyLive(x: ExecState)
    requires LiveExec(x.stages) == {}
    ensures ExecFinished(x)
  {
    forall i: nat | i < |x.stages| ensures x.stages[i].EDone? {
      assert i !in LiveExec(x.stages);
    }
  }

  function Latest<T>(tr: seq<T>): T
    requires |tr| > 0
  {
    tr[|tr| - 1]
  }

  /** What a worker still has to write are keys of its writeset. */
  lemma ExecStageSound(block: seq<Program>, base: Config, scheduled: set<nat>, tr: seq<ExecState>, i: nat)
    requires ExecReady(block, base, scheduled) && ExecPath(block, base, scheduled, tr) && i < |block|
    ensures var x := tr[|tr| - 1];
            i < |x.stages| && (x.stages[i].EWrite? ==> x.stages[i].todo <= x.stages[i].session.writeset.Keys)
  {
    ExecTraceInv(block, base, scheduled, tr, |tr| - 1);
    var x := tr[|tr| - 1];
    if i in scheduled {
      assert ExecLocal(block[i], i, base.parent, base.tasks[i], At(base.table, i),
                       x.c.tasks[i], At(x.c.table, i), x.stages[i]);
    }
  }

  /** A round can start: the scheduled slots are supported by their key lists. */
  lemma RoundIsReady(block: seq<Program>, init: State, a: LoopState, f: LoopState)
    requires LoopInv(block, init, a) && FlushStep(a, f)
    ensures ExecReady(block, f.c, ScheduledSet(a.scheduled))
  {
    forall i | i in ScheduledSet(a.scheduled) ensures i < |block| && Supported(At(f.c.table, i)) {
      assert i < |a.c.tasks| && TaskOk(block[i], i, a.c.tasks[i], At(a.c.table, i));
    }
  }

  /** The scheduler, run on the block of Fallback: it falls back, and the mark that the serial execution
      leaves is missing from its final state. */
  method FallbackLosesMark() returns (final: State)
    ensures Lookup(final, MARK) == 0 && Lookup(SerialState(BLOCK, map[], |BLOCK|), MARK) == 1
  {
    var state := new StateDB(map[], map[]);
    var scheduler := new BlockScheduler(BLOCK, state);
    ghost var run, sync;
    var responses;
    responses, run, sync := scheduler.ProcessAll();
    AlwaysFallsBack(run);
    assert scheduler.FellBack(RunEnd(BLOCK, map[], run), sync);
    FallbackIsNotSerial(run, sync, state.kv);
    final := state.kv;
  }
}
