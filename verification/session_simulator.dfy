/** The demonstration workflow (`sessionSimulator.ts`) driven through the
    session store: a manager spawns three supervisors, each supervisor plans
    three tasks and spawns a worker per task, each worker walks through five
    steps, and the last step rolls progress and completion up the hierarchy.

    Every timer callback is one function from store to store. A callback
    that calls a store action which throws stops there: its `Outcome` holds
    the store as the earlier actions left it and the error. The clock is
    `now`; the fresh ids the store draws are parameters. */
module Simulator {
  import opened Wrappers
  import opened Sets
  import opened Text
  import opened FlowTypes
  import opened SessionStore

  /** The store a callback leaves, and the error that stopped it, if any. */
  datatype Outcome = Outcome(store: Store, thrown: Option<StoreError>)

  const Components: seq<string> := ["Frontend", "Backend", "Database"]

  const StepNames: seq<string> :=
    ["Analyzing requirements", "Setting up environment", "Implementing solution", "Writing tests", "Final review"]

  /** The worker's output object `{filesCreated: 5, testsWritten: 10,
      coverage: '95%'}`, as its JSON text. */
  const SimulatedOutput := "{\"filesCreated\":5,\"testsWritten\":10,\"coverage\":\"95%\"}"

  const CompletedSummary := "Task completed successfully"

  // ---------------------------------------------------------------- arithmetic

  /** `Math.round(c / t * 100)` on exact arithmetic: the nearest integer to
      100·c/t, halves rounded up. The division is unguarded, so a zero
      denominator yields `NaN` over zero and `Infinity` otherwise. */
  function RoundPercent(c: nat, t: nat): (r: Progress)
    ensures t > 0 ==> r.Percent? && r.value * (2 * t) <= 200 * c + t < (r.value + 1) * (2 * t)
    ensures t == 0 ==> (r == NotANumber <==> c == 0) && (r == Infinity <==> c > 0)
  {
    if t > 0 then Percent((200 * c + t) / (2 * t))
    else if c == 0 then NotANumber
    else Infinity
  }

  /** Out of a non-empty whole the rounded share lies in [0, 100]; it is
      100 exactly when the missing part is at most half a percent, so in
      particular when everything is done, and 0 exactly when the done part
      is below half a percent. */
  lemma RoundPercentRange(c: nat, t: nat)
    requires 0 < t && c <= t
    ensures RoundPercent(c, t).Percent?
    ensures 0 <= RoundPercent(c, t).value <= 100
    ensures RoundPercent(c, t).value == 100 <==> 200 * (t - c) <= t
    ensures RoundPercent(c, t).value == 0 <==> 200 * c < t
  {
    var v := RoundPercent(c, t).value;
    var d := 2 * t;
    var n := 200 * c + t;
    assert v * d <= n < (v + 1) * d;
    LessByFactor(0, v + 1, d);
    LessByFactor(v, 101, d);
    if 200 * (t - c) <= t {
      LessByFactor(100, v + 1, d);
    }
    if v == 100 {
      assert 100 * d <= n;
    }
    if 200 * c < t {
      LessByFactor(v, 1, d);
    }
  }

  /** Cancelling a positive factor keeps a strict inequality. */
  lemma LessByFactor(a: int, b: int, d: int)
    requires d > 0 && a * d < b * d
    ensures a < b
  {
    ProductMonotone(a, b, d);
  }

  lemma ProductMonotone(a: int, b: int, d: int)
    requires d > 0
    ensures a >= b ==> a * d >= b * d
  {
    assert a * d - b * d == (a - b) * d;
  }


  /** ASCII `toLowerCase`. */
  function LowerChar(ch: char): char
  {
    if 'A' <= ch <= 'Z' then (ch as int + 32) as char else ch
  }

  function Lower(s: string): (r: string)
    ensures |r| == |s| && forall i :: 0 <= i < |s| ==> r[i] == LowerChar(s[i])
  {
    seq(|s|, i requires 0 <= i < |s| => LowerChar(s[i]))
  }

  // ---------------------------------------------------------------- manager

  /** `simulateManager`: the manager turns active. */
  function SimulateManager(st: Store, managerId: string, now: int): (r: Store)
    ensures SameShape(st, r)
    ensures managerId in st.sessions ==> r.sessions[managerId].status == Active
  {
    UpdateSessionStatus(st, managerId, Active, None, now)
  }

  /** The manager's 2-second callback: it schedules the supervisors and
      reports 30 percent before any of them exists. */
  function ManagerPlanned(st: Store, managerId: string, now: int): (r: Store)
    ensures SameShape(st, r)
    ensures managerId in st.sessions ==> r.sessions[managerId].progress == Some(Percent(30))
  {
    UpdateSessionProgress(st, managerId, Percent(30), now)
  }

  function SupervisorInstructions(component: string): string
  {
    "Develop the " + component + " components of the system"
  }

  function SupervisorDescription(component: string): string
  {
    "Handle all " + Lower(component) + " related tasks"
  }

  /** One supervisor of the manager: created, recorded as the manager's
      assignment, and sent its component and instructions. */
  function SpawnSupervisor(st: Store, managerId: string, component: string, supervisorId: string,
                           msgId: string, now: int): (r: Outcome)
  {
    match CreateSupervisorSession(st, supervisorId, managerId, component + " Supervisor", component, now)
    case Failure(e) => Outcome(st, Some(e))
    case Success(st1) =>
      match AssignSupervisorToManager(st1, managerId, supervisorId, component, SupervisorDescription(component), now)
      case Failure(e) => Outcome(st1, Some(e))
      case Success(st2) =>
        var payload := FieldsPayload(map["component" := component, "instructions" := SupervisorInstructions(component)]);
        Outcome(SendSessionMessage(st2, msgId, managerId, supervisorId, TaskAssignment, payload, now), None)
  }

  /** The spawn stops with `Invalid parent session`, and changes nothing,
      exactly when the manager is missing or is not a manager. Otherwise,
      for a fresh id, the supervisor is the manager's newest child and
      newest assignment and the task assignment addressed to it is the
      newest message. */
  lemma SpawnSupervisorFacts(st: Store, managerId: string, component: string, supervisorId: string,
                             msgId: string, now: int)
    requires supervisorId !in st.sessions
    ensures var r := SpawnSupervisor(st, managerId, component, supervisorId, msgId, now);
      && (r.thrown.Some? <==> managerId !in st.sessions || !st.sessions[managerId].kind.Manager?)
      && (r.thrown.Some? ==> r.thrown == Some(InvalidParent) && r.store == st)
      && (r.thrown.None? ==>
            && r.store.sessions.Keys == st.sessions.Keys + {supervisorId}
            && r.store.sessions[supervisorId].parentId == Some(managerId)
            && r.store.sessions[supervisorId].kind == Supervisor(Some(WorkPlan(component, [], None)), component, [])
            && r.store.sessions[managerId].childIds == st.sessions[managerId].childIds + [supervisorId]
            && r.store.sessions[managerId].kind.supervisorAssignments
               == st.sessions[managerId].kind.supervisorAssignments
                  + [SupervisorAssignment(supervisorId, component, SupervisorDescription(component))]
            && r.store.sessionMessages == st.sessionMessages
               + [SessionMessage(msgId, managerId, supervisorId, TaskAssignment,
                                 FieldsPayload(map["component" := component, "instructions" := SupervisorInstructions(component)]), now)])
  {
    if managerId in st.sessions && st.sessions[managerId].kind.Manager? {
      CreateSupervisorFacts(st, supervisorId, managerId, component + " Supervisor", component, now);
    }
  }

  /** Spawning a supervisor under a fresh id keeps the store invariant. */
  lemma SpawnSupervisorWf(st: Store, managerId: string, component: string, supervisorId: string,
                          msgId: string, now: int)
    requires Wf(st) && supervisorId !in st.sessions
    ensures Wf(SpawnSupervisor(st, managerId, component, supervisorId, msgId, now).store)
  {
    CreateSupervisorWf(st, supervisorId, managerId, component + " Supervisor", component, now);
    match CreateSupervisorSession(st, supervisorId, managerId, component + " Supervisor", component, now)
    case Failure(_) =>
    case Success(st1) =>
      match AssignSupervisorToManager(st1, managerId, supervisorId, component, SupervisorDescription(component), now)
      case Failure(_) =>
      case Success(st2) =>
        SameShapeWf(st1, st2);
  }

  // ---------------------------------------------------------------- supervisor

  function TaskId(stamp: nat, k: nat): string
  {
    "task_" + NatToString(stamp) + "_" + NatToString(k)
  }

  /** The three tasks of a supervisor's plan, all pending. */
  function PlanTasks(component: string, stamp: nat): (r: seq<Task>)
    ensures |r| == 3
    ensures forall i :: 0 <= i < 3 ==> r[i].status == TaskPending && r[i].id == TaskId(stamp, i + 1)
    ensures r[0].priority == High && r[1].priority == Medium && r[2].priority == Medium
  {
    [ Task(TaskId(stamp, 1), "Implement " + component + " architecture", None, TaskPending, High, None),
      Task(TaskId(stamp, 2), "Create " + component + " components", None, TaskPending, Medium, None),
      Task(TaskId(stamp, 3), "Test " + component + " functionality", None, TaskPending, Medium, None) ]
  }

  /** A supervisor's plan holds three tasks, so as its tasks complete its
      progress moves through 0, 33, 67 and 100. */
  lemma PlanProgressSteps(component: string, stamp: nat, c: nat)
    requires c <= |PlanTasks(component, stamp)|
    ensures RoundPercent(c, |PlanTasks(component, stamp)|) == Percent([0, 33, 67, 100][c])
  {
  }

  /** The three task ids differ: they share everything but the last digit. */
  lemma PlanTaskIdsDistinct(component: string, stamp: nat)
    ensures forall i, j :: 0 <= i < j < 3 ==> PlanTasks(component, stamp)[i].id != PlanTasks(component, stamp)[j].id
  {
    var p := "task_" + NatToString(stamp) + "_";
    var ids := [TaskId(stamp, 1), TaskId(stamp, 2), TaskId(stamp, 3)];
    assert ids[0] == p + "1" && ids[1] == p + "2" && ids[2] == p + "3";
    assert ids[0][|p|] == '1' && ids[1][|p|] == '2' && ids[2][|p|] == '3';
  }

  /** `simulateSupervisor`: a session that is not a supervisor is left
      alone; a supervisor turns active, gets the three-task plan for its
      component and reports 20 percent. */
  function SimulateSupervisor(st: Store, supervisorId: string, stamp: nat, now: int): (r: Store)
    ensures SameShape(st, r)
    ensures supervisorId !in st.sessions || !st.sessions[supervisorId].kind.Supervisor? ==> r == st
    ensures supervisorId in st.sessions && st.sessions[supervisorId].kind.Supervisor? ==>
      var component := st.sessions[supervisorId].kind.component;
      && r.sessions[supervisorId].status == Active
      && r.sessions[supervisorId].kind.workPlan == Some(WorkPlan(component, PlanTasks(component, stamp), None))
      && r.sessions[supervisorId].progress == Some(Percent(20))
    ensures forall k :: k in st.sessions && k != supervisorId ==> r.sessions[k] == st.sessions[k]
  {
    if supervisorId !in st.sessions || !st.sessions[supervisorId].kind.Supervisor? then st
    else
      var component := st.sessions[supervisorId].kind.component;
      var st1 := UpdateSessionStatus(st, supervisorId, Active, None, now);
      var st2 := UpdateWorkPlan(st1, supervisorId, WorkPlan(component, PlanTasks(component, stamp), None), now);
      UpdateSessionProgress(st2, supervisorId, Percent(20), now)
  }

  function WorkerName(component: string, index: nat): string
  {
    component + " Worker " + NatToString(index + 1)
  }

  function WorkerRequirements(task: Task): seq<string>
  {
    ["Complete " + task.description, "Follow coding standards", "Write unit tests"]
  }

  /** The supervisor's callback for its `index`-th task: a worker is
      created for the task, recorded as the supervisor's assignment, the
      task is marked assigned, and the worker is sent the task and its
      deadline. */
  function SpawnWorker(st: Store, supervisorId: string, component: string, index: nat, task: Task,
                       workerId: string, msgId: string, deadline: string, now: int): (r: Outcome)
  {
    match CreateWorkerSession(st, workerId, supervisorId, WorkerName(component, index), task.id, task.description,
                              WorkerRequirements(task), now)
    case Failure(e) => Outcome(st, Some(e))
    case Success(st1) =>
      match AssignWorkerToSupervisor(st1, supervisorId, workerId, [task.id], now)
      case Failure(e) => Outcome(st1, Some(e))
      case Success(st2) =>
        match UpdateTaskStatus(st2, supervisorId, task.id, TaskAssigned, now)
        case Failure(e) => Outcome(st2, Some(e))
        case Success(st3) =>
          var payload := FieldsPayload(map["task" := task.description, "deadline" := deadline]);
          Outcome(SendSessionMessage(st3, msgId, supervisorId, workerId, TaskAssignment, payload, now), None)
  }

  /** The spawn stops with `Invalid parent session`, changing nothing,
      exactly when the supervisor is missing or is not a supervisor. Given a
      supervisor with a plan and a fresh id, the worker holds the task as
      its request call, is the supervisor's newest child, the tasks with the
      task's id become assigned, and the newest message is the assignment. */
  lemma SpawnWorkerFacts(st: Store, supervisorId: string, component: string, index: nat, task: Task,
                         workerId: string, msgId: string, deadline: string, now: int)
    requires workerId !in st.sessions
    ensures var r := SpawnWorker(st, supervisorId, component, index, task, workerId, msgId, deadline, now);
      && (r.thrown == Some(InvalidParent) <==> supervisorId !in st.sessions || !st.sessions[supervisorId].kind.Supervisor?)
      && (r.thrown == Some(InvalidParent) ==> r.store == st)
      && (supervisorId in st.sessions && st.sessions[supervisorId].kind.Supervisor? ==>
            var sup := st.sessions[supervisorId];
            && (r.thrown.None? <==> sup.kind.workPlan.Some?)
            && (r.thrown.None? ==>
                  && r.store.sessions[workerId].parentId == Some(supervisorId)
                  && r.store.sessions[workerId].status == Idle
                  && r.store.sessions[workerId].kind.requestCall
                     == Some(RequestCall(task.id, task.description, WorkerRequirements(task), None, None))
                  && r.store.sessions[supervisorId].childIds == sup.childIds + [workerId]
                  && r.store.sessions[supervisorId].kind.workerAssignments
                     == sup.kind.workerAssignments + [WorkerAssignment(workerId, [task.id])]
                  && r.store.sessions[supervisorId].kind.workPlan.value.tasks
                     == SetTaskStatus(sup.kind.workPlan.value.tasks, task.id, TaskAssigned)
                  && r.store.sessionMessages == st.sessionMessages
                     + [SessionMessage(msgId, supervisorId, workerId, TaskAssignment,
                                       FieldsPayload(map["task" := task.description, "deadline" := deadline]), now)]))
  {
    if supervisorId in st.sessions && st.sessions[supervisorId].kind.Supervisor? {
      CreateWorkerFacts(st, workerId, supervisorId, WorkerName(component, index), task.id, task.description,
                        WorkerRequirements(task), now);
    }
  }

  /** Spawning a worker under a fresh id keeps the store invariant. */
  lemma SpawnWorkerWf(st: Store, supervisorId: string, component: string, index: nat, task: Task,
                      workerId: string, msgId: string, deadline: string, now: int)
    requires Wf(st) && workerId !in st.sessions
    ensures Wf(SpawnWorker(st, supervisorId, component, index, task, workerId, msgId, deadline, now).store)
  {
    var name := WorkerName(component, index);
    CreateWorkerWf(st, workerId, supervisorId, name, task.id, task.description, WorkerRequirements(task), now);
    match CreateWorkerSession(st, workerId, supervisorId, name, task.id, task.description, WorkerRequirements(task), now)
    case Failure(_) =>
    case Success(st1) =>
      match AssignWorkerToSupervisor(st1, supervisorId, workerId, [task.id], now)
      case Failure(_) =>
      case Success(st2) =>
        SameShapeWf(st1, st2);
        match UpdateTaskStatus(st2, supervisorId, task.id, TaskAssigned, now)
        case Failure(_) =>
        case Success(st3) =>
          SameShapeWf(st2, st3);
  }

  // ---------------------------------------------------------------- worker

  /** `simulateWorker`'s first actions: the worker turns active and its task
      in progress. */
  function WorkerStart(st: Store, workerId: string, supervisorId: string, taskId: string, now: int): (r: Outcome)
    ensures SameShape(st, r.store)
    ensures r.thrown.Some? <==>
      supervisorId !in st.sessions || !st.sessions[supervisorId].kind.Supervisor?
      || st.sessions[supervisorId].kind.workPlan.None?
  {
    var st1 := UpdateSessionStatus(st, workerId, Active, None, now);
    match UpdateTaskStatus(st1, supervisorId, taskId, TaskInProgress, now)
    case Failure(e) => Outcome(st1, Some(e))
    case Success(st2) => Outcome(st2, None)
  }

  /** The worker is active whatever happens next; under a supervisor with a
      plan, the tasks with the id are in progress and nothing else of the
      plan changes. */
  lemma WorkerStartFacts(st: Store, workerId: string, supervisorId: string, taskId: string, now: int)
    requires workerId in st.sessions && workerId != supervisorId
    ensures var r := WorkerStart(st, workerId, supervisorId, taskId, now);
      && workerId in r.store.sessions
      && r.store.sessions[workerId].status == Active
      && (r.thrown.None? ==>
            && supervisorId in r.store.sessions && r.store.sessions[supervisorId].kind.Supervisor?
            && r.store.sessions[supervisorId].kind.workPlan
               == Some(st.sessions[supervisorId].kind.workPlan.value.(
                         tasks := SetTaskStatus(st.sessions[supervisorId].kind.workPlan.value.tasks, taskId, TaskInProgress))))
  {
  }

  /** The start of step `index`: the step is recorded in progress. */
  function WorkerStepBegins(st: Store, workerId: string, index: nat, now: int): (r: Outcome)
    requires index < |StepNames|
    ensures SameShape(st, r.store)
    ensures r.thrown.Some? <==> workerId !in st.sessions || !st.sessions[workerId].kind.Worker?
  {
    match UpdateWorkerProgress(st, workerId, StepNames[index], StepInProgress, now)
    case Failure(e) => Outcome(st, Some(e))
    case Success(st1) => Outcome(st1, None)
  }

  /** A worker's step list records the step in progress, its first entry
      under that name updated or a new one appended. */
  lemma WorkerStepBeginsFacts(st: Store, workerId: string, index: nat, now: int)
    requires index < |StepNames|
    requires workerId in st.sessions && st.sessions[workerId].kind.Worker?
    ensures var r := WorkerStepBegins(st, workerId, index, now);
      && workerId in r.store.sessions && r.store.sessions[workerId].kind.Worker?
      && r.store.sessions[workerId].kind.taskProgress.steps
         == SetStep(st.sessions[workerId].kind.taskProgress.steps, StepNames[index], StepInProgress, now)
  {
  }

  /** How many tasks are completed. */
  function CountCompleted(tasks: seq<Task>): (r: nat)
    ensures r <= |tasks|
    ensures r == |tasks| <==> forall i :: 0 <= i < |tasks| ==> tasks[i].status == TaskCompleted
  {
    if |tasks| == 0 then 0
    else CountCompleted(tasks[..|tasks| - 1]) + (if tasks[|tasks| - 1].status == TaskCompleted then 1 else 0)
  }

  /** The ids of the completed sessions naming `parentId` as their parent. */
  function CompletedChildren(st: Store, parentId: string): (r: set<string>)
    ensures r <= ChildIds(st, parentId)
    ensures forall k :: k in r <==> k in ChildIds(st, parentId) && st.sessions[k].status == Completed
  {
    set k | k in ChildIds(st, parentId) && st.sessions[k].status == Completed
  }

  /** The manager's roll-up: its progress is the rounded share of its
      completed children (counted by parent link) in its child list, and it
      completes when the two counts agree. */
  function ManagerRollup(st: Store, managerId: string, now: int): (r: Store)
    ensures SameShape(st, r)
    ensures managerId in st.sessions && st.sessions[managerId].kind.Manager? ==>
      var done := |CompletedChildren(st, managerId)|;
      var total := |st.sessions[managerId].childIds|;
      && r.sessions[managerId].progress == Some(RoundPercent(done, total))
      && r.sessions[managerId].status == (if done == total then Completed else st.sessions[managerId].status)
      && r.sessions[managerId].error == (if done == total then None else st.sessions[managerId].error)
      && r.sessions[managerId]
         == st.sessions[managerId].(progress := r.sessions[managerId].progress, status := r.sessions[managerId].status,
                                    error := r.sessions[managerId].error, updated := now)
    ensures managerId !in st.sessions || !st.sessions[managerId].kind.Manager? ==> r == st
    ensures forall k :: k in st.sessions && k != managerId ==> r.sessions[k] == st.sessions[k]
    ensures forall k :: k in st.sessions ==> r.sessions[k].kind == st.sessions[k].kind
    ensures r.sessionMessages == st.sessionMessages && r.activeSessionId == st.activeSessionId
  {
    if managerId !in st.sessions || !st.sessions[managerId].kind.Manager? then st
    else
      var done := |CompletedChildren(st, managerId)|;
      var total := |st.sessions[managerId].childIds|;
      var st1 := UpdateSessionProgress(st, managerId, RoundPercent(done, total), now);
      if done == total then UpdateSessionStatus(st1, managerId, Completed, None, now) else st1
  }

  /** In a well-formed store every child on a manager's list is completed
      exactly when the completed children are as many as the list. */
  lemma AllChildrenCompleted(st: Store, managerId: string)
    requires Wf(st) && managerId in st.sessions && st.sessions[managerId].kind.Manager?
    ensures var m := st.sessions[managerId];
      (|CompletedChildren(st, managerId)| == |m.childIds|)
        <==> (forall c :: c in m.childIds ==> st.sessions[c].status == Completed)
  {
    var m := st.sessions[managerId];
    ChildIdsAreChildList(st, managerId);
    var children := ChildIds(st, managerId);
    var done := CompletedChildren(st, managerId);
    if forall c :: c in m.childIds ==> st.sessions[c].status == Completed {
      assert done == children;
    } else {
      var c :| c in m.childIds && st.sessions[c].status != Completed;
      assert c in children && c !in done;
      assert done <= children - {c};
      SubsetCard(done, children - {c});
    }
  }

  /** In a well-formed store the manager completes exactly when every
      session on its child list is completed. */
  lemma ManagerRollupWf(st: Store, managerId: string, now: int)
    requires Wf(st) && managerId in st.sessions && st.sessions[managerId].kind.Manager?
    ensures var m := st.sessions[managerId];
      var all := forall c :: c in m.childIds ==> st.sessions[c].status == Completed;
      ManagerRollup(st, managerId, now).sessions[managerId].status == (if all then Completed else m.status)
  {
    AllChildrenCompleted(st, managerId);
  }

  /** A manager whose listed children are all completed shows 100 percent,
      or NaN when it has no children at all. */
  lemma ManagerRollupAllDone(st: Store, managerId: string, now: int)
    requires Wf(st) && managerId in st.sessions && st.sessions[managerId].kind.Manager?
    requires forall c :: c in st.sessions[managerId].childIds ==> st.sessions[c].status == Completed
    ensures ManagerRollup(st, managerId, now).sessions[managerId].progress
            == Some(if st.sessions[managerId].childIds == [] then NotANumber else Percent(100))
  {
    var m := st.sessions[managerId];
    AllChildrenCompleted(st, managerId);
    if m.childIds != [] {
      RoundPercentRange(|CompletedChildren(st, managerId)|, |m.childIds|);
    }
  }

  /** The supervisor's roll-up after one of its tasks completes: its
      progress is the rounded share of completed tasks, and when all are
      completed it completes in turn. Reading the tasks of a supervisor
      without a plan throws. */
  function SupervisorRollup(st: Store, supervisorId: string, now: int): (r: Outcome)
    ensures SameShape(st, r.store) && r.store.sessionMessages == st.sessionMessages
  {
    if supervisorId !in st.sessions || !st.sessions[supervisorId].kind.Supervisor? then Outcome(st, None)
    else
      var sup := st.sessions[supervisorId];
      if sup.kind.workPlan.None? then Outcome(st, Some(TypeError))
      else
        var tasks := sup.kind.workPlan.value.tasks;
        var done := CountCompleted(tasks);
        var st1 := UpdateSessionProgress(st, supervisorId, RoundPercent(done, |tasks|), now);
        if done != |tasks| then Outcome(st1, None)
        else Outcome(SupervisorDone(st1, supervisorId, now), None)
  }

  /** A supervisor whose tasks are all completed is marked completed and, if
      it has a non-empty parent id, the manager rolls up. */
  function SupervisorDone(st: Store, supervisorId: string, now: int): (r: Store)
    requires supervisorId in st.sessions
    ensures SameShape(st, r) && r.sessionMessages == st.sessionMessages
    ensures r.sessions[supervisorId].status == Completed
    ensures forall k :: k in st.sessions ==> r.sessions[k].kind == st.sessions[k].kind
    ensures forall k :: k in st.sessions && k != supervisorId && !st.sessions[k].kind.Manager? ==>
      r.sessions[k] == st.sessions[k]
  {
    var parentId := st.sessions[supervisorId].parentId;
    var st1 := UpdateSessionStatus(st, supervisorId, Completed, None, now);
    if parentId.None? || parentId.value == "" then st1
    else ManagerRollup(st1, parentId.value, now)
  }

  /** The roll-up stops, changing nothing, exactly when the supervisor has
      no plan; otherwise the supervisor's progress is the rounded share of
      completed tasks, and it is completed exactly when they all are. It
      touches no message, no session's kind, and no session other than the
      supervisor and managers. */
  lemma SupervisorRollupFacts(st: Store, supervisorId: string, now: int)
    requires supervisorId in st.sessions && st.sessions[supervisorId].kind.Supervisor?
    ensures var r := SupervisorRollup(st, supervisorId, now); var sup := st.sessions[supervisorId];
      && (r.thrown.Some? <==> sup.kind.workPlan.None?)
      && (r.thrown.Some? ==> r.store == st)
      && (forall k :: k in st.sessions ==> r.store.sessions[k].kind == st.sessions[k].kind)
      && (forall k :: k in st.sessions && k != supervisorId && !st.sessions[k].kind.Manager? ==>
            r.store.sessions[k] == st.sessions[k])
      && (sup.kind.workPlan.Some? ==>
            var tasks := sup.kind.workPlan.value.tasks;
            var done := CountCompleted(tasks);
            && r.store.sessions[supervisorId].progress == Some(RoundPercent(done, |tasks|))
            && r.store.sessions[supervisorId].status == (if done == |tasks| then Completed else sup.status))
  {
    var sup := st.sessions[supervisorId];
    if sup.kind.workPlan.Some? {
      var tasks := sup.kind.workPlan.value.tasks;
      var st1 := UpdateSessionProgress(st, supervisorId, RoundPercent(CountCompleted(tasks), |tasks|), now);
      if CountCompleted(tasks) == |tasks| {
        var r := SupervisorDone(st1, supervisorId, now);
        var p := st1.sessions[supervisorId].parentId;
        if p.Some? && p.value != "" && p.value != supervisorId {
          assert r.sessions[supervisorId] == UpdateSessionStatus(st1, supervisorId, Completed, None, now).sessions[supervisorId];
        }
      }
    }
  }

  /** A supervisor whose plan has no tasks completes at once and shows NaN:
      nothing guards the division. */
  lemma SupervisorRollupNoTasks(st: Store, supervisorId: string, now: int)
    requires supervisorId in st.sessions && st.sessions[supervisorId].kind.Supervisor?
    requires st.sessions[supervisorId].kind.workPlan == Some(WorkPlan(st.sessions[supervisorId].kind.component, [], None))
    ensures SupervisorRollup(st, supervisorId, now).store.sessions[supervisorId].status == Completed
    ensures SupervisorRollup(st, supervisorId, now).store.sessions[supervisorId].progress == Some(NotANumber)
  {
    SupervisorRollupFacts(st, supervisorId, now);
  }

  /** In a well-formed store, a supervisor's completion reaches the manager
      above it: the manager completes exactly when every other session on
      its child list is already completed. */
  lemma SupervisorDoneReachesManager(st: Store, supervisorId: string, now: int)
    requires Wf(st) && supervisorId in st.sessions && st.sessions[supervisorId].kind.Supervisor?
    requires st.sessions[supervisorId].parentId.value != ""
    ensures var managerId := st.sessions[supervisorId].parentId.value; var m := st.sessions[managerId];
      var others := forall c :: c in m.childIds && c != supervisorId ==> st.sessions[c].status == Completed;
      SupervisorDone(st, supervisorId, now).sessions[managerId].status == (if others then Completed else m.status)
  {
    var sup := st.sessions[supervisorId];
    var managerId := sup.parentId.value;
    assert ParentFits(st.sessions, sup);
    var st1 := UpdateSessionStatus(st, supervisorId, Completed, None, now);
    SupervisorDoneUnfolds(st, supervisorId, now);
    SameShapeWf(st, st1);
    ManagerRollupWf(st1, managerId, now);
    var m := st.sessions[managerId];
    assert forall c :: c in m.childIds ==> c in st.sessions;
    OthersCompleted(st, supervisorId, m.childIds, now);
  }

  lemma SupervisorDoneUnfolds(st: Store, supervisorId: string, now: int)
    requires supervisorId in st.sessions
    requires st.sessions[supervisorId].parentId.Some? && st.sessions[supervisorId].parentId.value != ""
    ensures SupervisorDone(st, supervisorId, now)
            == ManagerRollup(UpdateSessionStatus(st, supervisorId, Completed, None, now),
                             st.sessions[supervisorId].parentId.value, now)
  {
  }

  /** Marking one session completed completes a list of sessions exactly
      when all the others on it already were. */
  lemma OthersCompleted(st: Store, id: string, cs: seq<string>, now: int)
    requires id in st.sessions && forall c :: c in cs ==> c in st.sessions
    ensures var st1 := UpdateSessionStatus(st, id, Completed, None, now);
      (forall c :: c in cs && c != id ==> st.sessions[c].status == Completed)
      <==> (forall c :: c in cs ==> st1.sessions[c].status == Completed)
  {
  }

  /** The end of step `index`: the step is recorded completed and the
      worker reports (index + 1)·20 percent; the last step also finishes
      the task. */
  function WorkerStepEnds(st: Store, workerId: string, supervisorId: string, taskId: string, index: nat,
                          msgId: string, now: int): (r: Outcome)
    requires index < |StepNames|
  {
    match UpdateWorkerProgress(st, workerId, StepNames[index], StepCompleted, now)
    case Failure(e) => Outcome(st, Some(e))
    case Success(st1) =>
      var st2 := UpdateSessionProgress(st1, workerId, Percent((index + 1) * 20), now);
      if index != |StepNames| - 1 then Outcome(st2, None)
      else FinishTask(st2, workerId, supervisorId, taskId, msgId, now)
  }

  /** The last step's completion: the worker completes with the simulated
      output, its task is marked completed, the supervisor is sent the
      result, and progress rolls up. */
  function FinishTask(st: Store, workerId: string, supervisorId: string, taskId: string, msgId: string, now: int)
    : (r: Outcome)
  {
    match CompleteWorkerTask(st, workerId, true, Some(SimulatedOutput), None, now)
    case Failure(e) => Outcome(st, Some(e))
    case Success(st1) =>
      match UpdateTaskStatus(st1, supervisorId, taskId, TaskCompleted, now)
      case Failure(e) => Outcome(st1, Some(e))
      case Success(st2) =>
        var payload := FieldsPayload(map["taskId" := taskId, "success" := "true", "summary" := CompletedSummary]);
        SupervisorRollup(SendSessionMessage(st2, msgId, workerId, supervisorId, ResultMessage, payload, now), supervisorId, now)
  }

  /** Every step's end stops exactly when the session is not a worker, and
      otherwise records the step completed and (index + 1)·20 percent;
      before the last step nothing else changes. */
  lemma WorkerStepEndsProgress(st: Store, workerId: string, supervisorId: string, taskId: string, index: nat,
                               msgId: string, now: int)
    requires index < |StepNames| - 1
    ensures var r := WorkerStepEnds(st, workerId, supervisorId, taskId, index, msgId, now);
      && SameShape(st, r.store)
      && (r.thrown.Some? <==> workerId !in st.sessions || !st.sessions[workerId].kind.Worker?)
      && (r.thrown.None? ==>
            && r.store.sessions[workerId].progress == Some(Percent((index + 1) * 20))
            && r.store.sessions[workerId].kind.taskProgress.steps
               == SetStep(st.sessions[workerId].kind.taskProgress.steps, StepNames[index], StepCompleted, now)
            && (forall k :: k in st.sessions && k != workerId ==> r.store.sessions[k] == st.sessions[k]))
  {
  }

  /** For a worker holding its call under a supervisor with a plan, the
      task's completion cannot stop: the worker is completed with its result
      recorded and its progress kept, every task with the id is completed,
      and the result message to the supervisor is the newest message. */
  lemma FinishTaskFacts(st: Store, workerId: string, supervisorId: string, taskId: string, msgId: string, now: int)
    requires workerId in st.sessions && st.sessions[workerId].kind.Worker?
    requires st.sessions[workerId].kind.requestCall.Some?
    requires supervisorId in st.sessions && st.sessions[supervisorId].kind.Supervisor?
    requires st.sessions[supervisorId].kind.workPlan.Some?
    ensures var r := FinishTask(st, workerId, supervisorId, taskId, msgId, now);
      && r.thrown.None?
      && r.store.sessions.Keys == st.sessions.Keys
      && r.store.sessions[workerId].status == Completed
      && r.store.sessions[workerId].progress == st.sessions[workerId].progress
      && r.store.sessions[workerId].kind.Worker?
      && r.store.sessions[workerId].kind.requestCall.Some?
      && r.store.sessions[workerId].kind.requestCall.value.result == Some(TaskResult(true, Some(SimulatedOutput), None))
      && r.store.sessions[workerId].kind.taskProgress.completed == Some(now)
      && r.store.sessions[supervisorId].kind.Supervisor?
      && r.store.sessions[supervisorId].kind.workPlan.Some?
      && r.store.sessions[supervisorId].kind.workPlan.value.tasks
         == SetTaskStatus(st.sessions[supervisorId].kind.workPlan.value.tasks, taskId, TaskCompleted)
      && r.store.sessionMessages == st.sessionMessages
         + [SessionMessage(msgId, workerId, supervisorId, ResultMessage,
                           FieldsPayload(map["taskId" := taskId, "success" := "true", "summary" := CompletedSummary]), now)]
  {
    var st1 := CompleteWorkerTask(st, workerId, true, Some(SimulatedOutput), None, now).value;
    assert st1.sessions[supervisorId] == st.sessions[supervisorId];
    var st2 := UpdateTaskStatus(st1, supervisorId, taskId, TaskCompleted, now).value;
    var payload := FieldsPayload(map["taskId" := taskId, "success" := "true", "summary" := CompletedSummary]);
    var st3 := SendSessionMessage(st2, msgId, workerId, supervisorId, ResultMessage, payload, now);
    assert st3.sessions[workerId] == st1.sessions[workerId];
    var r := SupervisorRollup(st3, supervisorId, now);
    assert r.store.sessions[workerId] == st3.sessions[workerId];
    assert r.store.sessions[supervisorId].kind == st3.sessions[supervisorId].kind;
  }

  /** After the last step the worker shows 100 percent and the task's
      completion goes through. */
  lemma WorkerLastStep(st: Store, workerId: string, supervisorId: string, taskId: string, msgId: string, now: int)
    requires workerId in st.sessions && st.sessions[workerId].kind.Worker?
    requires st.sessions[workerId].kind.requestCall.Some?
    requires supervisorId in st.sessions && st.sessions[supervisorId].kind.Supervisor?
    requires st.sessions[supervisorId].kind.workPlan.Some?
    ensures var r := WorkerStepEnds(st, workerId, supervisorId, taskId, |StepNames| - 1, msgId, now);
      && r.thrown.None?
      && r.store.sessions.Keys == st.sessions.Keys
      && r.store.sessions[workerId].status == Completed
      && r.store.sessions[workerId].progress == Some(Percent(100))
  {
    var index := |StepNames| - 1;
    var st1 := UpdateWorkerProgress(st, workerId, StepNames[index], StepCompleted, now).value;
    var st2 := UpdateSessionProgress(st1, workerId, Percent(100), now);
    assert st2.sessions[supervisorId] == st.sessions[supervisorId];
    FinishTaskFacts(st2, workerId, supervisorId, taskId, msgId, now);
  }
}
