/** The scheduler's two concurrent phases (scheduler/scheduler.go) as transition systems. Every worker
    moves by single atomic accesses of the shared state (one lookup, one cell, one status), and any
    worker that is not finished may move next. */
module Protocol {
  import opened Storage
  import opened Programs
  import opened Table
  import opened Sessions

  datatype Status = Pending | Executed | Aborted | Validated | Waiting

  /** A task. `runs` counts the completed calls of executeTask; the source has no such field. */
  datatype Task = Task(status: Status, deps: set<nat>, incarnation: nat,
                       response: Option<Response>, runs: nat)

  datatype Config = Config(tasks: seq<Task>, table: Table, parent: State)

  const NEW_TASK := Task(Pending, {}, 0, None, 0)

  /* Execution phase. */

  datatype ExecStage =
    | EIdle
    | ERun(rest: Program, session: Session)
    | ERemove(stale: set<StorageKey>, session: Session)
    | EWrite(todo: set<StorageKey>, session: Session)
    | EDone

  datatype ExecState = ExecState(c: Config, stages: seq<ExecStage>)

  function ExecStart(c: Config, scheduled: set<nat>): ExecState {
    ExecState(c, seq(|c.tasks|, i => if i in scheduled then EIdle else EDone))
  }

  predicate ExecFinished(x: ExecState) {
    forall i :: 0 <= i < |x.stages| ==> x.stages[i].EDone?
  }

  /** Worker `i` may move; where the order of a loop over keys is open, `k` is the key taken next. */
  predicate ExecEnabled(x: ExecState, i: nat, k: StorageKey) {
    i < |x.stages| == |x.c.tasks| && !x.stages[i].EDone? &&
    (x.stages[i].ERemove? && x.stages[i].stale != {} ==> k in x.stages[i].stale) &&
    (x.stages[i].EWrite? && x.stages[i].todo != {} ==> k in x.stages[i].todo)
  }

  function SessionCell(incarnation: nat, s: Session, k: StorageKey): Cell
    requires k in s.writeset
  {
    if s.abort.None? then ValueCell(incarnation, s.writeset[k]) else EstimateCell(incarnation)
  }

  function FinishedTask(t: Task, s: Session, r: Response): Task {
    if s.abort.None? then t.(status := Executed, response := Some(r), runs := t.runs + 1)
    else t.(status := Aborted, deps := t.deps + {s.abort.value}, runs := t.runs + 1)
  }

  function Publish(slot: Slot, s: Session): Slot {
    Slot(slot.row, Some(s.writeset.Keys), if s.abort.None? then Some(s.readset) else slot.readset)
  }

  /** One move of worker `i` of executeAll. */
  function ExecMove(block: seq<Program>, x: ExecState, i: nat, k: StorageKey): ExecState
    requires |block| == |x.stages| && ExecEnabled(x, i, k)
  {
    var task, slot := x.c.tasks[i], At(x.c.table, i);
    match x.stages[i]
    case EIdle => x.(stages := x.stages[i := ERun(block[i], NEW_SESSION)])
    case ERun(Done(r), s) =>
      // the status is set and the old key list is taken out of the store
      ExecState(
        x.c.(tasks := x.c.tasks[i := FinishedTask(task, s, r)], table := x.c.table[i := slot.(keys := None)]),
        x.stages[i := ERemove(ListedKeys(slot) - s.writeset.Keys, s)])
    case ERun(Fail, s) =>
      ExecState(x.c.(tasks := x.c.tasks[i := task.(runs := task.runs + 1)]), x.stages[i := EDone])
    case ERun(Write(wk, v, next), s) =>
      x.(stages := x.stages[i := ERun(next, SessionWrite(s, wk, v))])
    case ERun(Read(rk, _, _), s) =>
      x.(stages := x.stages[i := ERun(AfterRead(x.stages[i].rest, Seen(x.c.parent, s.readset, s.writeset, rk)),
                                      SessionRead(x.c.table, x.c.parent, i, s, rk))])
    case ERemove(stale, s) =>
      if stale == {} then x.(stages := x.stages[i := EWrite(s.writeset.Keys, s)])
      else
        ExecState(x.c.(table := x.c.table[i := slot.(row := slot.row - {k})]),
                  x.stages[i := ERemove(stale - {k}, s)])
    case EWrite(todo, s) =>
      if todo == {} then ExecState(x.c.(table := x.c.table[i := Publish(slot, s)]), x.stages[i := EDone])
      else if k in s.writeset then
        ExecState(x.c.(table := x.c.table[i := slot.(row := slot.row[k := SessionCell(task.incarnation, s, k)])]),
                  x.stages[i := EWrite(todo - {k}, s)])
      else x
    case EDone => x
  }

  /* Validation phase. */

  datatype ValStage =
    | VIdle
    | VCheck(keys: set<StorageKey>, valid: bool, conflicts: set<nat>)
    | VInvalidate(cells: set<StorageKey>, blamed: set<nat>)
    | VDeps(deps: set<nat>, invalid: bool)
    | VBlocked
    | VReset
    | VUnsettled
    | VValidated
    | VWaiting
    | VRerun

  /** `emitted` is what has been sent on the result channel, in order of arrival. */
  datatype ValState = ValState(c: Config, stages: seq<ValStage>, emitted: seq<nat>)

  predicate ValOver(v: ValStage) {
    v.VUnsettled? || v.VValidated? || v.VWaiting? || v.VRerun?
  }

  predicate ValFinished(y: ValState) {
    forall i :: 0 <= i < |y.stages| ==> ValOver(y.stages[i])
  }

  /** The tasks below `start` are validated already and get no worker. */
  function ValStart(c: Config, start: nat): ValState {
    ValState(c, seq(|c.tasks|, i => if i < start then VValidated else VIdle), [])
  }

  /** Worker `i` may move; `k` or `d` is the key or the dependency taken next, where that is open. */
  predicate ValEnabled(y: ValState, i: nat, k: StorageKey, d: nat) {
    i < |y.stages| == |y.c.tasks| && !ValOver(y.stages[i]) &&
    (y.stages[i].VCheck? && y.stages[i].keys != {} ==> k in y.stages[i].keys) &&
    (y.stages[i].VInvalidate? && y.stages[i].cells != {} ==> k in y.stages[i].cells) &&
    (y.stages[i].VDeps? && y.stages[i].deps != {} ==> d in y.stages[i].deps)
  }

  function ReadsetOf(slot: Slot): ReadSet {
    if slot.readset.Some? then slot.readset.value else map[]
  }

  predicate IsValidated(tasks: seq<Task>, d: nat) {
    d < |tasks| && tasks[d].status.Validated?
  }

  /** Reset and Increment. */
  function ResetTask(t: Task): Task {
    t.(status := Pending, response := None, incarnation := t.incarnation + 1)
  }

  function CheckOne(t: Table, parent: State, i: nat, k: StorageKey, values: seq<Hash>, v: ValStage): ValStage
    requires v.VCheck?
  {
    VCheck(v.keys - {k}, v.valid && KeyStands(t, parent, i, k, values),
           if Scan(t, i, k).Some? && Blames(t, i, k, values, Scan(t, i, k).value)
           then v.conflicts + {Scan(t, i, k).value} else v.conflicts)
  }

  /** One move of worker `i` of validateAll. */
  function ValMove(y: ValState, i: nat, k: StorageKey, d: nat): ValState
    requires ValEnabled(y, i, k, d)
  {
    var task, slot := y.c.tasks[i], At(y.c.table, i);
    match y.stages[i]
    case VIdle =>
      y.(stages := y.stages[i :=
        match task.status
        case Aborted => VReset
        case Pending => VReset
        case Executed => VCheck(ReadsetOf(slot).Keys, true, {})
        case Validated => VCheck(ReadsetOf(slot).Keys, true, {})
        case Waiting => VDeps(task.deps, false)])
    case VCheck(keys, valid, conflicts) =>
      if keys != {} then
        var values := if k in ReadsetOf(slot) then ReadsetOf(slot)[k] else [];
        y.(stages := y.stages[i := CheckOne(y.c.table, y.c.parent, i, k, values, y.stages[i])])
      else if !valid then y.(stages := y.stages[i := VInvalidate(ListedKeys(slot), conflicts)])
      else if conflicts == {} then
        y.(c := y.c.(tasks := y.c.tasks[i := task.(status := Validated)]), stages := y.stages[i := VValidated])
      else y.(stages := y.stages[i := VUnsettled])
    case VInvalidate(cells, blamed) =>
      if cells != {} then
        y.(c := y.c.(table := y.c.table[i := slot.(row := slot.row[k := EstimateCell(task.incarnation)])]),
           stages := y.stages[i := VInvalidate(cells - {k}, blamed)])
      else
        y.(c := y.c.(tasks := y.c.tasks[i := task.(deps := task.deps + blamed)],
                     table := y.c.table[i := slot.(readset := None)]),
           stages := y.stages[i := VDeps(task.deps + blamed, true)])
    case VDeps(deps, invalid) =>
      if deps == {} then y.(stages := y.stages[i := VReset])
      else if IsValidated(y.c.tasks, d) then y.(stages := y.stages[i := VDeps(deps - {d}, invalid)])
      else y.(stages := y.stages[i := if invalid then VBlocked else VWaiting])
    case VBlocked =>
      y.(c := y.c.(tasks := y.c.tasks[i := task.(status := Waiting)]), stages := y.stages[i := VWaiting])
    case VReset =>
      ValState(y.c.(tasks := y.c.tasks[i := ResetTask(task)]), y.stages[i := VRerun], y.emitted + [i])
    case _ => y
  }

  /** findFirstNonValidated: the first task that is not validated, or the number of tasks. */
  function FirstNonValidated(tasks: seq<Task>): (s: nat)
    ensures s <= |tasks|
    ensures forall j :: 0 <= j < s ==> tasks[j].status.Validated?
    ensures s < |tasks| ==> !tasks[s].status.Validated?
  {
    FirstNonValidatedFrom(tasks, 0)
  }

  function FirstNonValidatedFrom(tasks: seq<Task>, i: nat): (s: nat)
    requires i <= |tasks|
    ensures i <= s <= |tasks|
    ensures forall j :: i <= j < s ==> tasks[j].status.Validated?
    ensures s < |tasks| ==> !tasks[s].status.Validated?
    decreases |tasks| - i
  {
    if i == |tasks| || !tasks[i].status.Validated? then i else FirstNonValidatedFrom(tasks, i + 1)
  }
}
