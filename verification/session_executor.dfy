/** The session executor (`sessionExecutor.ts`): the in-memory registry of
    sessions, the set of running sessions bounded by a concurrency limit, the
    message queue, and the `.flow` directory it mirrors every change into.

    Every asynchronous handler of the source is one atomic transition here.
    The clock is the parameter `now`; the random identifiers the source draws
    are the values `ids(0)`, `ids(1)`, ... of a parameter `ids`, consumed in
    the order the source draws them; the language model's reply to a session
    is the parameter `reply` of `Execute`, `Failure(message)` standing for a
    thrown error. */
module Executor {
  import opened Wrappers
  import opened FlowTypes
  import FlowFiles
  import Parsers

  const DefaultMaxConcurrentSessions: nat := 5
  const DefaultPollingInterval: nat := 1000

  datatype Config = Config(projectDir: string, maxConcurrentSessions: nat, messagePollingInterval: nat)

  /** The constructor's `{ maxConcurrentSessions: 5, messagePollingInterval:
      1000, ...config }`: a value the caller gives wins over the default. */
  function MakeConfig(projectDir: string, maxConcurrent: Option<nat>, polling: Option<nat>): (c: Config)
    ensures c.projectDir == projectDir
    ensures maxConcurrent.Some? ==> c.maxConcurrentSessions == maxConcurrent.value
    ensures maxConcurrent.None? ==> c.maxConcurrentSessions == DefaultMaxConcurrentSessions
    ensures polling.Some? ==> c.messagePollingInterval == polling.value
    ensures polling.None? ==> c.messagePollingInterval == DefaultPollingInterval
  {
    Config(projectDir, maxConcurrent.GetOr(DefaultMaxConcurrentSessions), polling.GetOr(DefaultPollingInterval))
  }

  /** The executor state. `order` lists the registry's keys in insertion
      order (the iteration order of the source's `Map`); `polling` says
      whether the polling timer is armed; `disk` is the `.flow` directory. */
  datatype Exec = Exec(
    config: Config,
    sessions: map<string, Session>,
    order: seq<string>,
    active: set<string>,
    queue: seq<SessionMessage>,
    disk: FlowFiles.FlowDir,
    polling: bool)

  /** A freshly constructed executor. */
  function Init(config: Config): Exec
  {
    Exec(config, map[], [], {}, [], FlowFiles.EmptyDir, false)
  }

  /** The outcome of `activateSession`, which the source reports only through
      events: the session started, was turned away by the concurrency limit
      (`session:queued`), does not meet its precondition yet, or was unknown or
      already running. */
  datatype Activation = Activated | Queued | NotReady | Ignored

  // ---------------------------------------------------------------- registry

  /** `updateSession`: the registry and the session file both hold `s`. A new
      id goes to the end of the iteration order; a known id keeps its place. */
  function Put(e: Exec, s: Session, now: int): Exec
  {
    e.(sessions := e.sessions[s.id := s],
       order := if s.id in e.sessions then e.order else e.order + [s.id],
       disk := FlowFiles.WriteSessionFile(e.disk, s, now))
  }

  /** `sendMessage`: the message joins the in-memory queue and is written as a
      pending message file. */
  function Send(e: Exec, m: SessionMessage, now: int): Exec
  {
    e.(queue := e.queue + [m], disk := FlowFiles.WriteMessage(e.disk, m, now))
  }

  /** `checkActivationConditions`: a manager may always start; a supervisor
      needs a work plan and a worker a request call. */
  predicate CanActivate(s: Session)
  {
    match s.kind
    case Manager(_, _) => true
    case Supervisor(plan, _, _) => plan.Some?
    case Worker(call, _) => call.Some?
  }

  /** `activateSession`. The concurrency limit is tested before the
      precondition, so a manager is queued like any other session when the
      limit is reached. Starting the session's execution is a separate step,
      `Execute`. */
  function Activate(e: Exec, id: string, now: int): (r: (Exec, Activation))
    ensures r.1 == Ignored <==> id !in e.sessions || id in e.active
    ensures r.1 == Queued <==>
      id in e.sessions && id !in e.active && |e.active| >= e.config.maxConcurrentSessions
    ensures r.1 == NotReady <==>
      id in e.sessions && id !in e.active && |e.active| < e.config.maxConcurrentSessions
      && !CanActivate(e.sessions[id])
    ensures r.1 != Activated ==> r.0 == e
    ensures r.1 == Activated ==>
      && CanActivate(e.sessions[id])
      && r.0.active == e.active + {id}
      && |r.0.active| == |e.active| + 1 <= e.config.maxConcurrentSessions
      && r.0.queue == e.queue && r.0.config == e.config && r.0.polling == e.polling
    ensures r.1 == Activated && e.sessions[id].id == id ==>
      && r.0.sessions == e.sessions[id := e.sessions[id].(status := Active)]
      && r.0.order == e.order
  {
    if id !in e.sessions || id in e.active then (e, Ignored)
    else if |e.active| >= e.config.maxConcurrentSessions then (e, Queued)
    else if !CanActivate(e.sessions[id]) then (e, NotReady)
    else
      var s := e.sessions[id].(status := Active);
      (Put(e.(active := e.active + {id}), s, now), Activated)
  }

  /** `createSession`: registers and writes the session; a manager is then
      activated at once. */
  function CreateSession(e: Exec, s: Session, now: int): Exec
  {
    var e1 := Put(e, s, now);
    if s.kind.Manager? then Activate(e1, s.id, now).0 else e1
  }

  /** `resumeSession`: the same gate as a first activation. */
  function Resume(e: Exec, id: string, now: int): (r: (Exec, Activation))
    ensures r == Activate(e, id, now)
  {
    if id !in e.sessions || id in e.active then (e, Ignored) else Activate(e, id, now)
  }

  /** `pauseSession`: a running session leaves the running set and becomes
      idle; any other id is ignored. */
  function Pause(e: Exec, id: string, now: int): (r: Exec)
    ensures id in e.sessions && id in e.active ==> r.active == e.active - {id} && r.queue == e.queue
    ensures id in e.sessions && id in e.active && e.sessions[id].id == id ==>
      && r.sessions == e.sessions[id := e.sessions[id].(status := Idle)]
      && r.order == e.order
    ensures !(id in e.sessions && id in e.active) ==> r == e
  {
    if id !in e.sessions || id !in e.active then e
    else Put(e.(active := e.active - {id}), e.sessions[id].(status := Idle), now)
  }

  /** `start`: the directory layout is created (it has no content in this
      model) and the polling timer is armed. */
  function Start(e: Exec): Exec
  {
    e.(polling := true)
  }

  /** The running sessions that `stop` pauses, each set back to idle. */
  function Paused(e: Exec): (r: map<string, Session>)
    ensures r.Keys == e.sessions.Keys * e.active
  {
    map k | k in e.sessions && k in e.active :: e.sessions[k].(status := Idle)
  }

  /** `stop`: the timer is cleared and every running session that is
      registered is paused; an id without a session stays in the running set,
      as `pauseSession` returns early for it. */
  function Stop(e: Exec, now: int): (r: Exec)
    ensures !r.polling
    ensures r.active == e.active - e.sessions.Keys
    ensures r.sessions.Keys == e.sessions.Keys && r.order == e.order && r.queue == e.queue
    ensures forall k :: k in e.sessions ==>
      r.sessions[k] == if k in e.active then e.sessions[k].(status := Idle) else e.sessions[k]
  {
    var paused := Paused(e);
    e.(polling := false,
       active := e.active - e.sessions.Keys,
       sessions := e.sessions + paused,
       disk := FlowFiles.WriteSessionFiles(e.disk, paused, now))
  }

  /** `checkQueuedSessions`: in iteration order, every idle session that is
      not running is offered to `activateSession`. */
  function Recheck(e: Exec, now: int): Exec
  {
    RecheckOver(e, e.order, now)
  }

  function RecheckOver(e: Exec, ids: seq<string>, now: int): (r: Exec)
    ensures r.queue == e.queue && r.config == e.config && r.polling == e.polling
    ensures e.active <= r.active
    decreases |ids|
  {
    if |ids| == 0 then e
    else
      var id := ids[0];
      var e1 := if id in e.sessions && e.sessions[id].status == Idle && id !in e.active
        then Activate(e, id, now).0 else e;
      RecheckOver(e1, ids[1..], now)
  }

  // ---------------------------------------------------------------- execution

  /** The text of the `TypeError` a worker without a request call raises when
      its prompt is built. */
  const MissingRequestCall := "Cannot read properties of undefined (reading 'description')"

  const AnalyzingTask := "Analyzing task"
  const ImplementingSolution := "Implementing solution"

  /** `createSupervisorFromManager`'s session: idle, child of the manager,
      holding a work plan for its component with no tasks. */
  function NewSupervisor(id: string, managerId: string, component: string, now: int): (s: Session)
    ensures s.id == id && s.status == Idle && s.parentId == Some(managerId) && s.childIds == []
    ensures s.kind.Supervisor? && CanActivate(s)
  {
    Session(id, "Supervisor - " + component, Idle, Some(managerId), [], now, now, [], None, None,
      Supervisor(Some(WorkPlan(component, [], None)), component, []))
  }

  /** `createWorkerFromSupervisor`'s session: idle, child of the supervisor,
      holding a request call with an empty context and an unstarted progress
      record. */
  function NewWorker(id: string, taskId: string, supervisorId: string, d: Parsers.WorkerDescriptor, now: int): (s: Session)
    ensures s.id == id && s.status == Idle && s.parentId == Some(supervisorId) && s.childIds == []
    ensures s.kind.Worker? && CanActivate(s) && s.kind.requestCall.value.taskId == taskId
  {
    Session(id, "Worker - " + d.task, Idle, Some(supervisorId), [], now, now, [], None, None,
      Worker(Some(RequestCall(taskId, d.task, d.requirements, Some(map[]), None)), TaskProgress(0, None, [])))
  }

  /** The `n` identifiers drawn `stride` at a time from position `start`,
      in drawing order. */
  function Drawn(ids: nat -> string, start: nat, stride: nat, n: nat): (r: seq<string>)
    ensures |r| == n
    decreases n
  {
    if n == 0 then [] else [ids(start)] + Drawn(ids, start + stride, stride, n - 1)
  }

  /** `createSupervisorFromManager`: registers the supervisor `supId` and
      sends it its work plan in message `msgId`. */
  function CreateSupervisorFromManager(e: Exec, managerId: string, d: Parsers.SupervisorDescriptor,
                                       supId: string, msgId: string, now: int): Exec
  {
    var sup := NewSupervisor(supId, managerId, d.component, now);
    var msg := SessionMessage(msgId, managerId, supId, TaskAssignment, PlanPayload(sup.kind.workPlan.value), now);
    Send(CreateSession(e, sup, now), msg, now)
  }

  /** `createWorkerFromSupervisor`: registers the worker `workerId` with task
      id `taskId` and sends it its request call in message `msgId`. */
  function CreateWorkerFromSupervisor(e: Exec, supervisorId: string, d: Parsers.WorkerDescriptor,
                                      workerId: string, taskId: string, msgId: string, now: int): Exec
  {
    var w := NewWorker(workerId, taskId, supervisorId, d, now);
    var msg := SessionMessage(msgId, supervisorId, workerId, TaskAssignment, CallPayload(w.kind.requestCall.value), now);
    Send(CreateSession(e, w, now), msg, now)
  }

  /** One supervisor per descriptor, in order; the j-th uses identifiers
      `k + 2j` (session) and `k + 2j + 1` (message). */
  function SpawnSupervisors(e: Exec, managerId: string, ds: seq<Parsers.SupervisorDescriptor>,
                            ids: nat -> string, k: nat, now: int): (r: Exec)
    ensures r.active == e.active && r.config == e.config && r.polling == e.polling
    decreases |ds|
  {
    if |ds| == 0 then e
    else
      var e1 := CreateSupervisorFromManager(e, managerId, ds[0], ids(k), ids(k + 1), now);
      SpawnSupervisors(e1, managerId, ds[1..], ids, k + 2, now)
  }

  /** One worker per descriptor, in order; the j-th uses identifiers `k + 3j`
      (session), `k + 3j + 1` (task) and `k + 3j + 2` (message). */
  function SpawnWorkers(e: Exec, supervisorId: string, ds: seq<Parsers.WorkerDescriptor>,
                        ids: nat -> string, k: nat, now: int): (r: Exec)
    ensures r.active == e.active && r.config == e.config && r.polling == e.polling
    decreases |ds|
  {
    if |ds| == 0 then e
    else
      var e1 := CreateWorkerFromSupervisor(e, supervisorId, ds[0], ids(k), ids(k + 1), ids(k + 2), now);
      SpawnWorkers(e1, supervisorId, ds[1..], ids, k + 3, now)
  }

  /** The closing part of `executeSession`: the session is written as
      completed, leaves the running set, and queued sessions are rechecked. */
  function Complete(e: Exec, s: Session, now: int): Exec
  {
    var e1 := Put(e, s.(status := Completed), now);
    Recheck(e1.(active := e1.active - {s.id}), now)
  }

  /** `handleSessionError`: the session is written with status `Error` and the
      error's message, leaves the running set, and a parent named by a
      non-empty `parentId` is sent an `error` message. Nothing is rechecked. */
  function Fail(e: Exec, s: Session, text: string, ids: nat -> string, now: int): Exec
  {
    var e1 := Put(e.(active := e.active - {s.id}), s.(status := Error, error := Some(text)), now);
    match s.parentId
    case Some(p) =>
      if p != "" then Send(e1, SessionMessage(ids(0), s.id, p, ErrorMessage, ErrorPayload(text), now), now)
      else e1
    case None => e1
  }

  /** The progress record a worker writes before it calls the model. */
  function StartedProgress(now: int): TaskProgress
  {
    TaskProgress(now, None, [Step(AnalyzingTask, StepCompleted, now), Step(ImplementingSolution, StepInProgress, now)])
  }

  /** The progress record of a worker whose call succeeded. */
  function FinishedProgress(now: int): TaskProgress
  {
    TaskProgress(now, Some(now), StartedProgress(now).steps + [Step(ImplementingSolution, StepCompleted, now)])
  }

  /** `executeSession` for the session `id`, which an earlier activation
      started, given the model's reply (or the message of the error it threw).
      A manager records the reply and creates one supervisor per descriptor of
      `parseManagerResponse`; a supervisor does the same with workers and
      `parseSupervisorResponse`; a worker records the reply as its successful
      result and sends it to its parent. The session is then completed. A
      thrown error goes to `handleSessionError`, after whatever the session
      wrote before the call. An unknown id changes nothing. */
  function Execute(e: Exec, id: string, reply: Result<string, string>, ids: nat -> string, now: int): Exec
  {
    if id !in e.sessions then e
    else
      var s := e.sessions[id];
      match s.kind
      case Manager(_, _) =>
        (match reply
         case Failure(text) => Fail(e, s, text, ids, now)
         case Success(text) =>
           var s1 := s.(messages := s.messages + [FlowMessage(ids(0), now, Assistant, text)]);
           var e1 := SpawnSupervisors(e, s.id, Parsers.ParseManagerResponse(text), ids, 1, now);
           Complete(e1, s1, now))
      case Supervisor(_, _, _) =>
        (match reply
         case Failure(text) => Fail(e, s, text, ids, now)
         case Success(text) =>
           var s1 := s.(messages := s.messages + [FlowMessage(ids(0), now, Assistant, text)]);
           var e1 := SpawnWorkers(e, s.id, Parsers.ParseSupervisorResponse(text), ids, 1, now);
           Complete(e1, s1, now))
      case Worker(None, _) => Fail(e, s, MissingRequestCall, ids, now)
      case Worker(Some(call), _) =>
        var started := s.(kind := Worker(Some(call), StartedProgress(now)));
        (match reply
         case Failure(text) => Fail(Put(e, started, now), started, text, ids, now)
         case Success(text) =>
           var s1 := WorkerDone(s, call, text, ids, now);
           Complete(Send(Put(e, s1, now), ResultNotice(s, text, ids, now), now), s1, now))
  }

  /** The successful result a worker records for the reply `text`. */
  function WorkerResult(text: string): TaskResult
  {
    TaskResult(true, Some(text), None)
  }

  /** A worker after its call returned `text`: the reply is appended to its
      conversation and the result to its request call. */
  function WorkerDone(s: Session, call: RequestCall, text: string, ids: nat -> string, now: int): Session
  {
    s.(messages := s.messages + [FlowMessage(ids(0), now, Assistant, text)],
       kind := Worker(Some(call.(result := Some(WorkerResult(text)))), FinishedProgress(now)))
  }

  /** The `result` message a worker sends to its parent (to "" when it has
      none). */
  function ResultNotice(s: Session, text: string, ids: nat -> string, now: int): SessionMessage
  {
    SessionMessage(ids(1), s.id, s.parentId.GetOr(""), ResultMessage, ResultPayload(WorkerResult(text)), now)
  }

  /** One check of `monitorWorkerProgress`: every child listed by the
      supervisor that is registered has completed. */
  predicate WorkersCompleted(e: Exec, supervisor: Session)
  {
    forall c :: c in supervisor.childIds && c in e.sessions ==> e.sessions[c].status == Completed
  }

  // ---------------------------------------------------------------- messages

  /** The `task_assignment` case of `processMessages`: a supervisor takes a
      work plan, a worker a request call, each is written and offered to
      `activateSession`; any other pairing changes nothing. */
  function Assign(e: Exec, t: Session, payload: Payload, now: int): Exec
  {
    if t.kind.Supervisor? && payload.PlanPayload? then
      Activate(Put(e, t.(kind := t.kind.(workPlan := Some(payload.plan))), now), t.id, now).0
    else if t.kind.Worker? && payload.CallPayload? then
      Activate(Put(e, t.(kind := t.kind.(requestCall := Some(payload.call))), now), t.id, now).0
    else e
  }

  /** `handleStatusUpdate`: `payload.progress || session.progress`, then the
      session is written. */
  function StatusUpdate(e: Exec, t: Session, payload: Payload, now: int): Exec
  {
    var p := ProgressOf(payload);
    Put(e, t.(progress := if p.Some? && Truthy(p.value) then p else t.progress), now)
  }

  /** One iteration of `processMessages`. A message for an unknown session is
      skipped and stays pending; any other is handled by type and marked
      processed. Results, errors and queries change no state. */
  function Route(e: Exec, m: SessionMessage, now: int): Exec
  {
    if m.toSessionId !in e.sessions then e
    else
      var e1 := Dispatch(e, e.sessions[m.toSessionId], m, now);
      e1.(disk := FlowFiles.MarkProcessed(e1.disk, m.id, now))
  }

  /** The `switch` on the message type inside `processMessages`. */
  function Dispatch(e: Exec, t: Session, m: SessionMessage, now: int): Exec
  {
    match m.msgType
    case TaskAssignment => Assign(e, t, m.payload, now)
    case StatusUpdate => StatusUpdate(e, t, m.payload, now)
    case _ => e
  }

  function RouteAll(e: Exec, msgs: seq<SessionMessage>, now: int): Exec
    decreases |msgs|
  {
    if |msgs| == 0 then e else RouteAll(Route(e, msgs[0], now), msgs[1..], now)
  }

  /** `processMessages`: the pending messages of the listed message files,
      handled in listing order. */
  function ProcessMessages(e: Exec, listing: seq<string>, now: int): Exec
  {
    RouteAll(e, FlowFiles.ReadPending(e.disk, listing), now)
  }

  // ---------------------------------------------------------------- queries

  /** `getSession`. */
  function GetSession(e: Exec, id: string): (r: Option<Session>)
    ensures r.Some? <==> id in e.sessions
    ensures r.Some? ==> r.value == e.sessions[id]
  {
    if id in e.sessions then Some(e.sessions[id]) else None
  }

  /** The sessions of the listed ids that are registered, in list order. */
  function Lookup(sessions: map<string, Session>, ids: seq<string>): (r: seq<Session>)
    ensures |r| <= |ids|
    ensures forall s :: s in r ==> exists k :: k in ids && k in sessions && sessions[k] == s
    ensures forall k :: k in ids && k in sessions ==> sessions[k] in r
  {
    if |ids| == 0 then []
    else (if ids[0] in sessions then [sessions[ids[0]]] else []) + Lookup(sessions, ids[1..])
  }

  /** `getAllSessions`: the registry's values in insertion order. */
  function GetAllSessions(e: Exec): seq<Session>
  {
    Lookup(e.sessions, e.order)
  }

  /** `getActiveSessions`: the registered sessions of the running set (its
      iteration order is not modelled). */
  function GetActiveSessions(e: Exec): (r: set<Session>)
    ensures forall s :: s in r <==> exists k :: k in e.active && k in e.sessions && e.sessions[k] == s
  {
    set k | k in e.active && k in e.sessions :: e.sessions[k]
  }
}
