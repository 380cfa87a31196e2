/** The data model of the session hierarchy (`flow.types.ts`): sessions of
    exactly one of three kinds, their work plans, request calls and progress
    records, and the messages sessions exchange. */
module FlowTypes {
  import opened Wrappers

  datatype SessionType = ManagerType | SupervisorType | WorkerType

  /** The five lifecycle statuses; `Waiting` is declared by the source but no
      operation of the core ever assigns it. */
  datatype SessionStatus = Idle | Active | Completed | Error | Waiting

  /** A session's numeric progress. `NotANumber` and `Infinity` are the
      values `Math.round` yields for the unguarded divisions 0 / 0 and n / 0
      with n > 0. */
  datatype Progress = Percent(value: int) | NotANumber | Infinity

  datatype Sender = Human | Assistant

  /** One turn of the conversation a session holds with the language model
      (the optional model metadata is not modelled). */
  datatype FlowMessage = FlowMessage(id: string, timestamp: int, sender: Sender, content: string)

  datatype ProjectOverview = ProjectOverview(
    title: string,
    description: string,
    objectives: seq<string>,
    constraints: Option<seq<string>>,
    deliverables: seq<string>)

  datatype SupervisorAssignment = SupervisorAssignment(supervisorId: string, component: string, description: string)

  datatype TaskStatus = TaskPending | TaskAssigned | TaskInProgress | TaskCompleted | TaskFailed

  datatype Priority = Low | Medium | High

  datatype Task = Task(
    id: string,
    description: string,
    assignedWorkerId: Option<string>,
    status: TaskStatus,
    priority: Priority,
    dependencies: Option<seq<string>>)

  datatype Timeline = Timeline(estimated: int, actual: Option<int>)

  datatype WorkPlan = WorkPlan(component: string, tasks: seq<Task>, timeline: Option<Timeline>)

  datatype WorkerAssignment = WorkerAssignment(workerId: string, taskIds: seq<string>)

  /** The outcome a worker reports; `output` is free-form in the source and a
      text here. */
  datatype TaskResult = TaskResult(success: bool, output: Option<string>, error: Option<string>)

  /** `context` is a free-form record in the source; here a map of texts. */
  datatype RequestCall = RequestCall(
    taskId: string,
    description: string,
    requirements: seq<string>,
    context: Option<map<string, string>>,
    result: Option<TaskResult>)

  datatype StepStatus = StepPending | StepInProgress | StepCompleted | StepFailed

  datatype Step = Step(name: string, status: StepStatus, timestamp: int)

  datatype TaskProgress = TaskProgress(started: int, completed: Option<int>, steps: seq<Step>)

  /** The type-specific part of a session. A supervisor's work plan and a
      worker's request call are optional because the executor treats their
      absence as "not yet activatable". */
  datatype Kind =
    | Manager(projectOverview: ProjectOverview, supervisorAssignments: seq<SupervisorAssignment>)
    | Supervisor(workPlan: Option<WorkPlan>, component: string, workerAssignments: seq<WorkerAssignment>)
    | Worker(requestCall: Option<RequestCall>, taskProgress: TaskProgress)

  /** A session: the fields every session has, plus exactly one kind. The
      parent is optional while the list of children always exists. */
  datatype Session = Session(
    id: string,
    name: string,
    status: SessionStatus,
    parentId: Option<string>,
    childIds: seq<string>,
    created: int,
    updated: int,
    messages: seq<FlowMessage>,
    progress: Option<Progress>,
    error: Option<string>,
    kind: Kind)
  {
    /** The `type` tag, determined by the kind. */
    function Type(): (t: SessionType)
      ensures t == ManagerType <==> kind.Manager?
      ensures t == SupervisorType <==> kind.Supervisor?
      ensures t == WorkerType <==> kind.Worker?
    {
      match kind
      case Manager(_, _) => ManagerType
      case Supervisor(_, _, _) => SupervisorType
      case Worker(_, _) => WorkerType
    }
  }

  datatype MessageType = TaskAssignment | StatusUpdate | ResultMessage | ErrorMessage | Query

  /** The payload a message carries. The source's payload is untyped; these
      are the shapes the core produces: a work plan or a request call for an
      assignment, a worker result, an error text, a progress value, and the
      ad-hoc text records of the simulator. */
  datatype Payload =
    | PlanPayload(plan: WorkPlan)
    | CallPayload(call: RequestCall)
    | ResultPayload(result: TaskResult)
    | ErrorPayload(text: string)
    | ProgressPayload(progress: Progress)
    | FieldsPayload(fields: map<string, string>)

  datatype SessionMessage = SessionMessage(
    id: string,
    fromSessionId: string,
    toSessionId: string,
    msgType: MessageType,
    payload: Payload,
    timestamp: int)

  /** JavaScript truthiness of a progress value: zero and NaN are falsy. */
  predicate Truthy(p: Progress)
  {
    p.Infinity? || (p.Percent? && p.value != 0)
  }

  /** `payload.progress`: present only on a progress payload. */
  function ProgressOf(p: Payload): Option<Progress>
  {
    if p.ProgressPayload? then Some(p.progress) else None
  }
}
