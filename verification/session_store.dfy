/** The session store (`sessionStore.ts`): the UI's record of sessions, the
    messages they exchange, and the selected session. Unlike the executor it
    links every child it creates into its parent's `childIds`.

    Each action is a function from store to store. The random identifier an
    action draws is its parameter `id` (or `msgId`); the clock is `now`. An
    action that throws in the source returns `Failure`: `InvalidParent` for
    the explicit `Invalid parent session` error, `TypeError` for the error
    JavaScript raises when the action reads a field of a missing session or
    spreads a field the session's kind does not have. */
module SessionStore {
  import opened Wrappers
  import opened FlowTypes

  datatype Store = Store(
    sessions: map<string, Session>,
    sessionMessages: seq<SessionMessage>,
    activeSessionId: Option<string>)

  datatype StoreError = InvalidParent | TypeError

  /** The message of the error the child-creating actions throw. */
  const InvalidParentMessage := "Invalid parent session"

  /** The store's initial state, which `clearAllSessions` restores. */
  const Empty := Store(map[], [], None)

  // ---------------------------------------------------------------- invariant

  /** A session's parent link agrees with its kind: a manager is a root, a
      supervisor's parent is a registered manager, a worker's parent a
      registered supervisor. */
  ghost predicate ParentFits(m: map<string, Session>, s: Session)
  {
    match s.kind
    case Manager(_, _) => s.parentId.None?
    case Supervisor(_, _, _) =>
      s.parentId.Some? && s.parentId.value in m && m[s.parentId.value].kind.Manager?
    case Worker(_, _) =>
      s.parentId.Some? && s.parentId.value in m && m[s.parentId.value].kind.Supervisor?
  }

  /** Every session is stored under its own id. */
  ghost predicate Keyed(m: map<string, Session>)
  {
    forall k :: k in m ==> m[k].id == k
  }

  ghost predicate Fits(m: map<string, Session>)
  {
    forall k :: k in m ==> ParentFits(m, m[k])
  }

  /** Every child is on its parent's child list. */
  ghost predicate Listed(m: map<string, Session>)
  {
    forall k :: k in m && m[k].parentId.Some? && m[k].parentId.value in m ==>
      k in m[m[k].parentId.value].childIds
  }

  /** Every entry of a child list is a registered session naming that parent. */
  ghost predicate Linked(m: map<string, Session>)
  {
    forall k, c :: k in m && c in m[k].childIds ==>
      c in m && m[c].parentId == Some(k)
  }

  /** No child list repeats an id. */
  ghost predicate Distinct(m: map<string, Session>)
  {
    forall k, i, j :: k in m && 0 <= i < j < |m[k].childIds| ==>
      m[k].childIds[i] != m[k].childIds[j]
  }

  /** The store invariant: sessions are stored under their ids, parent
      links fit the kinds, and parent and child lists agree both ways
      without repeats. */
  ghost predicate Wf(st: Store)
  {
    Keyed(st.sessions) && Fits(st.sessions) && Listed(st.sessions) && Linked(st.sessions) && Distinct(st.sessions)
  }

  /** Two sessions agree on everything the invariant looks at. */
  predicate SameLinks(a: Session, b: Session)
  {
    && a.id == b.id && a.parentId == b.parentId && a.childIds == b.childIds
    && a.kind.Manager? == b.kind.Manager? && a.kind.Supervisor? == b.kind.Supervisor?
  }

  /** `b` is `a` with some sessions rewritten without touching their links. */
  predicate SameShape(a: Store, b: Store)
  {
    && a.sessions.Keys == b.sessions.Keys
    && forall k :: k in a.sessions ==> SameLinks(a.sessions[k], b.sessions[k])
  }

  lemma EmptyWf()
    ensures Wf(Empty)
  {
  }

  /** Rewriting sessions without touching their links keeps the invariant. */
  lemma SameShapeWf(a: Store, b: Store)
    requires Wf(a) && SameShape(a, b)
    ensures Wf(b)
  {
    forall k | k in b.sessions
      ensures ParentFits(b.sessions, b.sessions[k])
    {
      assert SameLinks(a.sessions[k], b.sessions[k]);
      if b.sessions[k].parentId.Some? {
        var p := b.sessions[k].parentId.value;
        assert ParentFits(a.sessions, a.sessions[k]);
        assert p in a.sessions;
        assert SameLinks(a.sessions[p], b.sessions[p]);
      }
    }
    forall k | k in b.sessions && b.sessions[k].parentId.Some?
      ensures k in b.sessions[b.sessions[k].parentId.value].childIds
    {
      assert SameLinks(a.sessions[k], b.sessions[k]);
      var p := b.sessions[k].parentId.value;
      assert ParentFits(a.sessions, a.sessions[k]);
      assert SameLinks(a.sessions[p], b.sessions[p]);
    }
    forall k, c | k in b.sessions && c in b.sessions[k].childIds
      ensures c in b.sessions && b.sessions[c].parentId == Some(k)
    {
      assert SameLinks(a.sessions[k], b.sessions[k]);
      assert SameLinks(a.sessions[c], b.sessions[c]);
    }
    forall k, i, j | k in b.sessions && 0 <= i < j < |b.sessions[k].childIds|
      ensures b.sessions[k].childIds[i] != b.sessions[k].childIds[j]
    {
      assert SameLinks(a.sessions[k], b.sessions[k]);
    }
  }

  // ---------------------------------------------------------------- creation

  function NewManager(id: string, name: string, overview: ProjectOverview, now: int): Session
  {
    Session(id, name, Idle, None, [], now, now, [], None, None, Manager(overview, []))
  }

  function NewSupervisor(id: string, parentId: string, name: string, component: string, now: int): Session
  {
    Session(id, name, Idle, Some(parentId), [], now, now, [], None, None,
            Supervisor(Some(WorkPlan(component, [], None)), component, []))
  }

  function NewWorker(id: string, parentId: string, name: string, taskId: string, description: string,
                     requirements: seq<string>, now: int): Session
  {
    Session(id, name, Idle, Some(parentId), [], now, now, [], None, None,
            Worker(Some(RequestCall(taskId, description, requirements, None, None)), TaskProgress(now, None, [])))
  }

  /** `createManagerSession`: an idle root with no children and no
      assignments is stored under `id`; nothing else changes. */
  function CreateManagerSession(st: Store, id: string, name: string, overview: ProjectOverview, now: int): (r: Store)
    ensures r.sessions.Keys == st.sessions.Keys + {id}
    ensures var s := r.sessions[id];
      && s.id == id && s.status == Idle && s.parentId.None? && s.childIds == []
      && s.kind.Manager? && s.kind.projectOverview == overview && s.kind.supervisorAssignments == []
    ensures forall k :: k in st.sessions && k != id ==> r.sessions[k] == st.sessions[k]
    ensures r.sessionMessages == st.sessionMessages && r.activeSessionId == st.activeSessionId
  {
    st.(sessions := st.sessions[id := NewManager(id, name, overview, now)])
  }

  /** The two spreads of the child-creating actions: the child is stored
      under its id, then the parent is stored with the child's id appended
      to its child list. */
  function Adopt(st: Store, parentId: string, child: Session, now: int): Store
    requires parentId in st.sessions
  {
    var p := st.sessions[parentId];
    st.(sessions := st.sessions[child.id := child][parentId := p.(childIds := p.childIds + [child.id], updated := now)])
  }

  /** What adopting a child does when its id is not the parent's: the child
      is stored, the parent's child list gains exactly the child's id at its
      end, and no other session changes. */
  lemma AdoptFacts(st: Store, parentId: string, child: Session, now: int)
    requires parentId in st.sessions && child.id != parentId
    ensures var r := Adopt(st, parentId, child, now); var p := st.sessions[parentId];
      && r.sessions.Keys == st.sessions.Keys + {child.id}
      && r.sessions[child.id] == child
      && r.sessions[parentId] == p.(childIds := p.childIds + [child.id], updated := now)
      && (forall k :: k in st.sessions && k != child.id && k != parentId ==> r.sessions[k] == st.sessions[k])
      && r.sessionMessages == st.sessionMessages && r.activeSessionId == st.activeSessionId
  {
  }

  /** `createSupervisorSession`: throws `Invalid parent session` exactly when
      the parent is missing or is not a manager; otherwise an idle
      supervisor with an empty work plan is stored, linked both ways. */
  function CreateSupervisorSession(st: Store, id: string, parentId: string, name: string, component: string, now: int)
    : (r: Result<Store, StoreError>)
    ensures r.Failure? <==> parentId !in st.sessions || !st.sessions[parentId].kind.Manager?
    ensures r.Failure? ==> r.error == InvalidParent
  {
    if parentId !in st.sessions || !st.sessions[parentId].kind.Manager? then Failure(InvalidParent)
    else Success(Adopt(st, parentId, NewSupervisor(id, parentId, name, component, now), now))
  }

  /** `createWorkerSession`: throws `Invalid parent session` exactly when the
      parent is missing or is not a supervisor; otherwise an idle worker
      holding its request call is stored, linked both ways. */
  function CreateWorkerSession(st: Store, id: string, parentId: string, name: string, taskId: string,
                               description: string, requirements: seq<string>, now: int)
    : (r: Result<Store, StoreError>)
    ensures r.Failure? <==> parentId !in st.sessions || !st.sessions[parentId].kind.Supervisor?
    ensures r.Failure? ==> r.error == InvalidParent
  {
    if parentId !in st.sessions || !st.sessions[parentId].kind.Supervisor? then Failure(InvalidParent)
    else Success(Adopt(st, parentId, NewWorker(id, parentId, name, taskId, description, requirements, now), now))
  }

  /** A created supervisor is idle, holds an empty work plan for its
      component, names its parent, and is the new last entry of the parent's
      child list; every other session is unchanged. */
  lemma CreateSupervisorFacts(st: Store, id: string, parentId: string, name: string, component: string, now: int)
    requires parentId in st.sessions && st.sessions[parentId].kind.Manager? && id != parentId
    ensures var r := CreateSupervisorSession(st, id, parentId, name, component, now);
      var p := st.sessions[parentId];
      && r.Success?
      && r.value.sessions.Keys == st.sessions.Keys + {id}
      && r.value.sessions[id].status == Idle && r.value.sessions[id].parentId == Some(parentId)
      && r.value.sessions[id].childIds == []
      && r.value.sessions[id].kind == Supervisor(Some(WorkPlan(component, [], None)), component, [])
      && r.value.sessions[parentId] == p.(childIds := p.childIds + [id], updated := now)
      && (forall k :: k in st.sessions && k != id && k != parentId ==> r.value.sessions[k] == st.sessions[k])
  {
    AdoptFacts(st, parentId, NewSupervisor(id, parentId, name, component, now), now);
  }

  /** A created worker is idle, holds the request call it was given and an
      empty progress record, names its parent, and is the new last entry of
      the parent's child list; every other session is unchanged. */
  lemma CreateWorkerFacts(st: Store, id: string, parentId: string, name: string, taskId: string,
                          description: string, requirements: seq<string>, now: int)
    requires parentId in st.sessions && st.sessions[parentId].kind.Supervisor? && id != parentId
    ensures var r := CreateWorkerSession(st, id, parentId, name, taskId, description, requirements, now);
      var p := st.sessions[parentId];
      && r.Success?
      && r.value.sessions.Keys == st.sessions.Keys + {id}
      && r.value.sessions[id].status == Idle && r.value.sessions[id].parentId == Some(parentId)
      && r.value.sessions[id].childIds == []
      && r.value.sessions[id].kind == Worker(Some(RequestCall(taskId, description, requirements, None, None)),
                                             TaskProgress(now, None, []))
      && r.value.sessions[parentId] == p.(childIds := p.childIds + [id], updated := now)
      && (forall k :: k in st.sessions && k != id && k != parentId ==> r.value.sessions[k] == st.sessions[k])
  {
    AdoptFacts(st, parentId, NewWorker(id, parentId, name, taskId, description, requirements, now), now);
  }

  lemma CreateManagerWf(st: Store, id: string, name: string, overview: ProjectOverview, now: int)
    requires Wf(st) && id !in st.sessions
    ensures Wf(CreateManagerSession(st, id, name, overview, now))
  {
    var r := CreateManagerSession(st, id, name, overview, now);
    forall k | k in r.sessions
      ensures ParentFits(r.sessions, r.sessions[k])
    {
      if k != id {
        assert ParentFits(st.sessions, st.sessions[k]);
      }
    }
    forall k, c | k in r.sessions && c in r.sessions[k].childIds
      ensures c in r.sessions && r.sessions[c].parentId == Some(k)
    {
      assert k != id;
    }
  }

  /** With a fresh id, adopting a child whose parent link fits keeps the
      invariant. */
  lemma AdoptWf(st: Store, parentId: string, child: Session, now: int)
    requires Wf(st) && parentId in st.sessions && child.id !in st.sessions
    requires child.parentId == Some(parentId) && child.childIds == []
    requires ParentFits(st.sessions, child)
    ensures Wf(Adopt(st, parentId, child, now))
  {
    AdoptFits(st, parentId, child, now);
    AdoptListed(st, parentId, child, now);
    AdoptLinked(st, parentId, child, now);
    AdoptDistinct(st, parentId, child, now);
  }

  lemma AdoptFits(st: Store, parentId: string, child: Session, now: int)
    requires Keyed(st.sessions) && Fits(st.sessions) && parentId in st.sessions && child.id !in st.sessions
    requires ParentFits(st.sessions, child)
    ensures Fits(Adopt(st, parentId, child, now).sessions)
  {
    var r := Adopt(st, parentId, child, now);
    AdoptFacts(st, parentId, child, now);
    forall k | k in r.sessions
      ensures ParentFits(r.sessions, r.sessions[k])
    {
      if k != child.id {
        assert ParentFits(st.sessions, st.sessions[k]);
      }
    }
  }

  lemma AdoptListed(st: Store, parentId: string, child: Session, now: int)
    requires Fits(st.sessions) && Listed(st.sessions) && parentId in st.sessions && child.id !in st.sessions
    requires child.parentId == Some(parentId)
    ensures Listed(Adopt(st, parentId, child, now).sessions)
  {
    var r := Adopt(st, parentId, child, now);
    AdoptFacts(st, parentId, child, now);
    forall k | k in r.sessions && r.sessions[k].parentId.Some? && r.sessions[k].parentId.value in r.sessions
      ensures k in r.sessions[r.sessions[k].parentId.value].childIds
    {
      if k != child.id {
        assert ParentFits(st.sessions, st.sessions[k]);
      }
    }
  }

  lemma AdoptLinked(st: Store, parentId: string, child: Session, now: int)
    requires Linked(st.sessions) && parentId in st.sessions && child.id !in st.sessions
    requires child.parentId == Some(parentId) && child.childIds == []
    ensures Linked(Adopt(st, parentId, child, now).sessions)
  {
    var r := Adopt(st, parentId, child, now);
    AdoptFacts(st, parentId, child, now);
    forall k, c | k in r.sessions && c in r.sessions[k].childIds
      ensures c in r.sessions && r.sessions[c].parentId == Some(k)
    {
      if k == parentId && c != child.id {
        assert c in st.sessions[parentId].childIds;
      }
    }
  }

  lemma AdoptDistinct(st: Store, parentId: string, child: Session, now: int)
    requires Linked(st.sessions) && Distinct(st.sessions) && parentId in st.sessions && child.id !in st.sessions
    requires child.childIds == []
    ensures Distinct(Adopt(st, parentId, child, now).sessions)
  {
    var r := Adopt(st, parentId, child, now);
    AdoptFacts(st, parentId, child, now);
    forall k, i, j | k in r.sessions && 0 <= i < j < |r.sessions[k].childIds|
      ensures r.sessions[k].childIds[i] != r.sessions[k].childIds[j]
    {
      if k == parentId && j == |st.sessions[parentId].childIds| {
        assert r.sessions[k].childIds[i] in st.sessions[parentId].childIds;
      }
    }
  }

  lemma CreateSupervisorWf(st: Store, id: string, parentId: string, name: string, component: string, now: int)
    requires Wf(st) && id !in st.sessions
    ensures var r := CreateSupervisorSession(st, id, parentId, name, component, now);
      r.Success? ==> Wf(r.value)
  {
    if parentId in st.sessions && st.sessions[parentId].kind.Manager? {
      AdoptWf(st, parentId, NewSupervisor(id, parentId, name, component, now), now);
    }
  }

  lemma CreateWorkerWf(st: Store, id: string, parentId: string, name: string, taskId: string,
                       description: string, requirements: seq<string>, now: int)
    requires Wf(st) && id !in st.sessions
    ensures var r := CreateWorkerSession(st, id, parentId, name, taskId, description, requirements, now);
      r.Success? ==> Wf(r.value)
  {
    if parentId in st.sessions && st.sessions[parentId].kind.Supervisor? {
      AdoptWf(st, parentId, NewWorker(id, parentId, name, taskId, description, requirements, now), now);
    }
  }

  // ---------------------------------------------------------------- field updates

  /** `updateSessionStatus`: both the status and the error are overwritten,
      so an update without an error clears a recorded one. */
  function UpdateSessionStatus(st: Store, id: string, status: SessionStatus, error: Option<string>, now: int): (r: Store)
    ensures SameShape(st, r)
    ensures id in st.sessions ==>
      r.sessions[id] == st.sessions[id].(status := status, error := error, updated := now)
    ensures forall k :: k in st.sessions && k != id ==> r.sessions[k] == st.sessions[k]
    ensures r.sessionMessages == st.sessionMessages && r.activeSessionId == st.activeSessionId
  {
    if id !in st.sessions then st
    else st.(sessions := st.sessions[id := st.sessions[id].(status := status, error := error, updated := now)])
  }

  /** `updateSessionProgress`. */
  function UpdateSessionProgress(st: Store, id: string, progress: Progress, now: int): (r: Store)
    ensures SameShape(st, r)
    ensures id in st.sessions ==>
      r.sessions[id] == st.sessions[id].(progress := Some(progress), updated := now)
    ensures forall k :: k in st.sessions && k != id ==> r.sessions[k] == st.sessions[k]
    ensures r.sessionMessages == st.sessionMessages && r.activeSessionId == st.activeSessionId
  {
    if id !in st.sessions then st
    else st.(sessions := st.sessions[id := st.sessions[id].(progress := Some(progress), updated := now)])
  }

  /** `addMessage`: the conversation turn is appended; a missing session
      makes the source throw. */
  function AddMessage(st: Store, id: string, m: FlowMessage, now: int): (r: Result<Store, StoreError>)
    ensures r.Failure? <==> id !in st.sessions
    ensures r.Success? ==>
      && SameShape(st, r.value)
      && r.value.sessions[id].messages == st.sessions[id].messages + [m]
      && r.value.sessions[id] == st.sessions[id].(messages := r.value.sessions[id].messages, updated := now)
      && (forall k :: k in st.sessions && k != id ==> r.value.sessions[k] == st.sessions[k])
  {
    if id !in st.sessions then Failure(TypeError)
    else
      var s := st.sessions[id];
      Success(st.(sessions := st.sessions[id := s.(messages := s.messages + [m], updated := now)]))
  }

  /** `sendSessionMessage`: the message is appended to the store's message
      list; the session it is for is not touched yet. */
  function SendSessionMessage(st: Store, msgId: string, from: string, to: string, msgType: MessageType,
                              payload: Payload, now: int): (r: Store)
    ensures r.sessions == st.sessions && r.activeSessionId == st.activeSessionId
    ensures r.sessionMessages == st.sessionMessages + [SessionMessage(msgId, from, to, msgType, payload, now)]
  {
    st.(sessionMessages := st.sessionMessages + [SessionMessage(msgId, from, to, msgType, payload, now)])
  }

  /** The callback `sendSessionMessage` schedules: a task assignment sets its
      destination active (and clears its error); other types do nothing. */
  function DeliverAssignment(st: Store, to: string, msgType: MessageType, now: int): (r: Store)
    ensures SameShape(st, r)
    ensures msgType == TaskAssignment && to in st.sessions ==>
      r.sessions[to].status == Active && r.sessions[to].error.None?
    ensures msgType != TaskAssignment ==> r == st
    ensures forall k :: k in st.sessions && k != to ==> r.sessions[k] == st.sessions[k]
    ensures r.sessionMessages == st.sessionMessages
  {
    if msgType == TaskAssignment then UpdateSessionStatus(st, to, Active, None, now) else st
  }

  /** `assignSupervisorToManager`: the assignment is appended to the
      manager's list; a missing session or one that is not a manager makes
      the source throw. */
  function AssignSupervisorToManager(st: Store, managerId: string, supervisorId: string, component: string,
                                     description: string, now: int): (r: Result<Store, StoreError>)
    ensures r.Failure? <==> managerId !in st.sessions || !st.sessions[managerId].kind.Manager?
    ensures r.Success? ==>
      && SameShape(st, r.value)
      && r.value.sessions[managerId].kind.supervisorAssignments
         == st.sessions[managerId].kind.supervisorAssignments + [SupervisorAssignment(supervisorId, component, description)]
      && r.value.sessions[managerId]
         == st.sessions[managerId].(kind := r.value.sessions[managerId].kind, updated := now)
      && r.value.sessions[managerId].kind
         == st.sessions[managerId].kind.(supervisorAssignments := r.value.sessions[managerId].kind.supervisorAssignments)
      && (forall k :: k in st.sessions && k != managerId ==> r.value.sessions[k] == st.sessions[k])
      && r.value.sessionMessages == st.sessionMessages && r.value.activeSessionId == st.activeSessionId
  {
    if managerId !in st.sessions || !st.sessions[managerId].kind.Manager? then Failure(TypeError)
    else
      var s := st.sessions[managerId];
      var assignments := s.kind.supervisorAssignments + [SupervisorAssignment(supervisorId, component, description)];
      Success(st.(sessions := st.sessions[managerId := s.(kind := s.kind.(supervisorAssignments := assignments), updated := now)]))
  }

  /** `assignWorkerToSupervisor`: the assignment is appended to the
      supervisor's list; a missing session or one that is not a supervisor
      makes the source throw. */
  function AssignWorkerToSupervisor(st: Store, supervisorId: string, workerId: string, taskIds: seq<string>, now: int)
    : (r: Result<Store, StoreError>)
    ensures r.Failure? <==> supervisorId !in st.sessions || !st.sessions[supervisorId].kind.Supervisor?
    ensures r.Success? ==>
      && SameShape(st, r.value)
      && r.value.sessions[supervisorId].kind.workerAssignments
         == st.sessions[supervisorId].kind.workerAssignments + [WorkerAssignment(workerId, taskIds)]
      && r.value.sessions[supervisorId]
         == st.sessions[supervisorId].(kind := r.value.sessions[supervisorId].kind, updated := now)
      && r.value.sessions[supervisorId].kind
         == st.sessions[supervisorId].kind.(workerAssignments := r.value.sessions[supervisorId].kind.workerAssignments)
      && (forall k :: k in st.sessions && k != supervisorId ==> r.value.sessions[k] == st.sessions[k])
      && r.value.sessionMessages == st.sessionMessages && r.value.activeSessionId == st.activeSessionId
  {
    if supervisorId !in st.sessions || !st.sessions[supervisorId].kind.Supervisor? then Failure(TypeError)
    else
      var s := st.sessions[supervisorId];
      var assignments := s.kind.workerAssignments + [WorkerAssignment(workerId, taskIds)];
      Success(st.(sessions := st.sessions[supervisorId := s.(kind := s.kind.(workerAssignments := assignments), updated := now)]))
  }

  /** `updateWorkPlan` on a supervisor: the plan is replaced. */
  function UpdateWorkPlan(st: Store, supervisorId: string, plan: WorkPlan, now: int): (r: Store)
    ensures SameShape(st, r)
    ensures supervisorId in st.sessions && st.sessions[supervisorId].kind.Supervisor? ==>
      r.sessions[supervisorId].kind.workPlan == Some(plan)
    ensures supervisorId in st.sessions && st.sessions[supervisorId].kind.Supervisor? ==>
      && r.sessions[supervisorId] == st.sessions[supervisorId].(kind := r.sessions[supervisorId].kind, updated := now)
      && r.sessions[supervisorId].kind == st.sessions[supervisorId].kind.(workPlan := r.sessions[supervisorId].kind.workPlan)
    ensures supervisorId !in st.sessions || !st.sessions[supervisorId].kind.Supervisor? ==> r == st
    ensures forall k :: k in st.sessions && k != supervisorId ==> r.sessions[k] == st.sessions[k]
    ensures r.sessionMessages == st.sessionMessages && r.activeSessionId == st.activeSessionId
  {
    if supervisorId !in st.sessions || !st.sessions[supervisorId].kind.Supervisor? then st
    else
      var s := st.sessions[supervisorId];
      st.(sessions := st.sessions[supervisorId := s.(kind := s.kind.(workPlan := Some(plan)), updated := now)])
  }

  // ---------------------------------------------------------------- tasks and steps

  /** `tasks.map(task => task.id === taskId ? { ...task, status } : task)`. */
  function SetTaskStatus(tasks: seq<Task>, taskId: string, status: TaskStatus): (r: seq<Task>)
    ensures |r| == |tasks|
    ensures forall i :: 0 <= i < |tasks| ==>
      r[i] == if tasks[i].id == taskId then tasks[i].(status := status) else tasks[i]
  {
    if |tasks| == 0 then []
    else
      var head := if tasks[0].id == taskId then tasks[0].(status := status) else tasks[0];
      [head] + SetTaskStatus(tasks[1..], taskId, status)
  }

  /** Setting a task's status twice is setting it once with the later
      status: the update of one task id never disturbs the others. */
  lemma SetTaskStatusTwice(tasks: seq<Task>, taskId: string, s1: TaskStatus, s2: TaskStatus)
    ensures SetTaskStatus(SetTaskStatus(tasks, taskId, s1), taskId, s2) == SetTaskStatus(tasks, taskId, s2)
  {
  }

  /** `updateTaskStatus`: every task with the id takes the status, all other
      tasks and the order are kept; a missing session, or one without a work
      plan, makes the source throw. */
  function UpdateTaskStatus(st: Store, supervisorId: string, taskId: string, status: TaskStatus, now: int)
    : (r: Result<Store, StoreError>)
    ensures r.Failure? <==>
      supervisorId !in st.sessions || !st.sessions[supervisorId].kind.Supervisor?
      || st.sessions[supervisorId].kind.workPlan.None?
    ensures r.Success? ==>
      && SameShape(st, r.value)
      && r.value.sessions[supervisorId].kind.workPlan
         == Some(st.sessions[supervisorId].kind.workPlan.value.(
                   tasks := SetTaskStatus(st.sessions[supervisorId].kind.workPlan.value.tasks, taskId, status)))
      && r.value.sessions[supervisorId]
         == st.sessions[supervisorId].(kind := r.value.sessions[supervisorId].kind, updated := now)
      && r.value.sessions[supervisorId].kind
         == st.sessions[supervisorId].kind.(workPlan := r.value.sessions[supervisorId].kind.workPlan)
      && (forall k :: k in st.sessions && k != supervisorId ==> r.value.sessions[k] == st.sessions[k])
      && r.value.sessionMessages == st.sessionMessages && r.value.activeSessionId == st.activeSessionId
  {
    if supervisorId !in st.sessions || !st.sessions[supervisorId].kind.Supervisor?
       || st.sessions[supervisorId].kind.workPlan.None?
    then Failure(TypeError)
    else
      var s := st.sessions[supervisorId];
      var plan := s.kind.workPlan.value;
      var plan1 := plan.(tasks := SetTaskStatus(plan.tasks, taskId, status));
      Success(st.(sessions := st.sessions[supervisorId := s.(kind := s.kind.(workPlan := Some(plan1)), updated := now)]))
  }

  /** `steps.findIndex(step => step.name === name)`, `None` for -1. */
  function FindStep(steps: seq<Step>, name: string): (r: Option<nat>)
    ensures r.Some? ==> r.value < |steps| && steps[r.value].name == name
    ensures r.Some? ==> forall j :: 0 <= j < r.value ==> steps[j].name != name
    ensures r.None? ==> forall j :: 0 <= j < |steps| ==> steps[j].name != name
  {
    if |steps| == 0 then None
    else if steps[0].name == name then Some(0)
    else
      match FindStep(steps[1..], name)
      case None => None
      case Some(i) => Some(i + 1)
  }

  /** The step list after `updateWorkerProgress`: the first step with the
      name is updated in place, or a new step is appended. */
  function SetStep(steps: seq<Step>, name: string, status: StepStatus, now: int): (r: seq<Step>)
    ensures |steps| <= |r| <= |steps| + 1
  {
    match FindStep(steps, name)
    case Some(i) => steps[i := steps[i].(status := status, timestamp := now)]
    case None => steps + [Step(name, status, now)]
  }

  /** After the update the first step with the name carries the new status
      and time; every step before it, and every step after it that was
      there, is unchanged. The list grows exactly when no step had the name. */
  lemma SetStepFacts(steps: seq<Step>, name: string, status: StepStatus, now: int)
    ensures var r := SetStep(steps, name, status, now);
      && FindStep(r, name).Some?
      && var i := FindStep(r, name).value;
      && r[i] == Step(name, status, now)
      && (|r| == |steps| + 1 <==> FindStep(steps, name).None?)
      && (forall j :: 0 <= j < |steps| && j != i ==> r[j] == steps[j])
  {
    var r := SetStep(steps, name, status, now);
    match FindStep(steps, name)
    case Some(i) =>
      assert r[i].name == name;
      FindStepAt(r, name, i);
    case None =>
      assert r[|steps|].name == name;
      FindStepAt(r, name, |steps|);
  }

  /** A step with the name at `i` and none before it is what `FindStep`
      finds. */
  lemma {:induction false} FindStepAt(steps: seq<Step>, name: string, i: nat)
    requires i < |steps| && steps[i].name == name
    requires forall j :: 0 <= j < i ==> steps[j].name != name
    ensures FindStep(steps, name) == Some(i)
  {
    if i > 0 {
      FindStepAt(steps[1..], name, i - 1);
    }
  }

  /** Repeating the same progress update changes nothing more. */
  lemma SetStepIdempotent(steps: seq<Step>, name: string, status: StepStatus, now: int)
    ensures SetStep(SetStep(steps, name, status, now), name, status, now) == SetStep(steps, name, status, now)
  {
    var r := SetStep(steps, name, status, now);
    SetStepFacts(steps, name, status, now);
    var i := FindStep(r, name).value;
    assert r[i := r[i].(status := status, timestamp := now)] == r;
  }

  /** `updateWorkerProgress`: the worker's step list is updated by name; a
      missing session, or one that is not a worker, makes the source throw. */
  function UpdateWorkerProgress(st: Store, workerId: string, name: string, status: StepStatus, now: int)
    : (r: Result<Store, StoreError>)
    ensures r.Failure? <==> workerId !in st.sessions || !st.sessions[workerId].kind.Worker?
    ensures r.Success? ==>
      && SameShape(st, r.value)
      && r.value.sessions[workerId].kind.taskProgress.steps
         == SetStep(st.sessions[workerId].kind.taskProgress.steps, name, status, now)
      && r.value.sessions[workerId].kind.requestCall == st.sessions[workerId].kind.requestCall
      && r.value.sessions[workerId].status == st.sessions[workerId].status
      && r.value.sessions[workerId]
         == st.sessions[workerId].(kind := r.value.sessions[workerId].kind, updated := now)
      && r.value.sessions[workerId].kind.taskProgress
         == st.sessions[workerId].kind.taskProgress.(steps := r.value.sessions[workerId].kind.taskProgress.steps)
      && (forall k :: k in st.sessions && k != workerId ==> r.value.sessions[k] == st.sessions[k])
      && r.value.sessionMessages == st.sessionMessages && r.value.activeSessionId == st.activeSessionId
  {
    if workerId !in st.sessions || !st.sessions[workerId].kind.Worker? then Failure(TypeError)
    else
      var s := st.sessions[workerId];
      var tp := s.kind.taskProgress;
      var tp1 := tp.(steps := SetStep(tp.steps, name, status, now));
      Success(st.(sessions := st.sessions[workerId := s.(kind := s.kind.(taskProgress := tp1), updated := now)]))
  }

  /** `completeWorkerTask`: on a worker holding a request call the status is
      `Completed` when the task succeeded and `Error` otherwise, the result
      is recorded on the call, and the progress record is closed at `now`;
      a missing session makes the source throw and the store is kept. */
  function CompleteWorkerTask(st: Store, workerId: string, success: bool, output: Option<string>,
                              error: Option<string>, now: int): (r: Result<Store, StoreError>)
    ensures r.Failure? <==> workerId !in st.sessions
    ensures r.Success? ==> SameShape(st, r.value)
    ensures r.Success? && st.sessions[workerId].kind.Worker? && st.sessions[workerId].kind.requestCall.Some? ==>
      var s := r.value.sessions[workerId];
      && (s.status == Completed <==> success)
      && (s.status == Error <==> !success)
      && s.kind.requestCall == Some(st.sessions[workerId].kind.requestCall.value.(result := Some(TaskResult(success, output, error))))
      && s.kind.taskProgress == st.sessions[workerId].kind.taskProgress.(completed := Some(now))
      && s == st.sessions[workerId].(status := s.status, kind := s.kind, updated := now)
    ensures workerId in st.sessions
            && !(st.sessions[workerId].kind.Worker? && st.sessions[workerId].kind.requestCall.Some?) ==>
      r == Success(st)
    ensures r.Success? ==> forall k :: k in st.sessions && k != workerId ==> r.value.sessions[k] == st.sessions[k]
    ensures r.Success? ==> r.value.sessionMessages == st.sessionMessages && r.value.activeSessionId == st.activeSessionId
  {
    if workerId !in st.sessions then Failure(TypeError)
    else if !st.sessions[workerId].kind.Worker? || st.sessions[workerId].kind.requestCall.None? then Success(st)
    else
      var s := st.sessions[workerId];
      var call := s.kind.requestCall.value.(result := Some(TaskResult(success, output, error)));
      var tp := s.kind.taskProgress.(completed := Some(now));
      var s1 := s.(status := if success then Completed else Error, kind := Worker(Some(call), tp), updated := now);
      Success(st.(sessions := st.sessions[workerId := s1]))
  }

  // ---------------------------------------------------------------- queries

  /** `getSessionById`. */
  function GetSessionById(st: Store, id: string): (r: Option<Session>)
    ensures r.Some? <==> id in st.sessions
    ensures r.Some? ==> r.value == st.sessions[id]
  {
    if id in st.sessions then Some(st.sessions[id]) else None
  }

  /** The ids of the sessions naming `parentId` as their parent. */
  function ChildIds(st: Store, parentId: string): (r: set<string>)
    ensures forall k :: k in r <==> k in st.sessions && st.sessions[k].parentId == Some(parentId)
  {
    set k | k in st.sessions && st.sessions[k].parentId == Some(parentId)
  }

  /** `getChildSessions`: the sessions naming `parentId` as their parent
      (the source lists them in insertion order; the order is not kept). */
  function GetChildSessions(st: Store, parentId: string): (r: set<Session>)
    ensures forall s :: s in r <==> s in st.sessions.Values && s.parentId == Some(parentId)
  {
    set k | k in ChildIds(st, parentId) :: st.sessions[k]
  }

  /** In a well-formed store the sessions naming a parent are exactly the
      ones on its child list, one per entry. */
  lemma ChildIdsAreChildList(st: Store, parentId: string)
    requires Wf(st) && parentId in st.sessions
    ensures ChildIds(st, parentId) == set c | c in st.sessions[parentId].childIds
    ensures |ChildIds(st, parentId)| == |st.sessions[parentId].childIds|
  {
    var cs := st.sessions[parentId].childIds;
    forall k | k in ChildIds(st, parentId) ensures k in cs {
      assert ParentFits(st.sessions, st.sessions[k]);
    }
    DistinctCard(cs);
  }

  /** A list without repeats has as many distinct elements as entries. */
  lemma {:induction false} DistinctCard(xs: seq<string>)
    requires forall i, j :: 0 <= i < j < |xs| ==> xs[i] != xs[j]
    ensures |set x | x in xs| == |xs|
  {
    if |xs| > 0 {
      var rest := xs[1..];
      DistinctCard(rest);
      assert (set x | x in xs) == (set x | x in rest) + {xs[0]};
      assert xs[0] !in rest;
    }
  }

  /** `getSessionMessages`' filter: the messages sent from or to `id`. */
  function Involving(ms: seq<SessionMessage>, id: string): (r: seq<SessionMessage>)
    ensures |r| <= |ms|
    ensures forall m :: m in r <==> m in ms && (m.fromSessionId == id || m.toSessionId == id)
  {
    if |ms| == 0 then []
    else
      var rest := Involving(ms[1..], id);
      if ms[0].fromSessionId == id || ms[0].toSessionId == id then [ms[0]] + rest else rest
  }

  /** The filter keeps the list's order: filtering a concatenation is
      concatenating the filtered parts. */
  lemma {:induction false} InvolvingAppend(a: seq<SessionMessage>, b: seq<SessionMessage>, id: string)
    ensures Involving(a + b, id) == Involving(a, id) + Involving(b, id)
    decreases |a|
  {
    if |a| == 0 {
      assert a + b == b;
    } else {
      assert (a + b)[1..] == a[1..] + b;
      InvolvingAppend(a[1..], b, id);
    }
  }

  /** `getSessionMessages`. */
  function GetSessionMessages(st: Store, id: string): (r: seq<SessionMessage>)
    ensures forall m :: m in r <==> m in st.sessionMessages && (m.fromSessionId == id || m.toSessionId == id)
  {
    Involving(st.sessionMessages, id)
  }

  /** `setActiveSession`. */
  function SetActiveSession(st: Store, id: Option<string>): (r: Store)
    ensures r.activeSessionId == id && r.sessions == st.sessions && r.sessionMessages == st.sessionMessages
  {
    st.(activeSessionId := id)
  }

  /** `clearAllSessions`: no sessions, no messages, nothing selected. */
  function ClearAllSessions(st: Store): (r: Store)
    ensures r.sessions == map[] && r.sessionMessages == [] && r.activeSessionId.None?
    ensures Wf(r)
  {
    Empty
  }
}
