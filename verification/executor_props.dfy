/** Properties of the session executor: the state invariant every operation
    preserves, what a recheck of queued sessions does and that it settles, the
    concurrency limit, and the outcomes of executing a session and of
    processing the message directory. */
module ExecutorProps {
  import opened Wrappers
  import opened Sets
  import opened FlowTypes
  import FlowFiles
  import Parsers
  import opened Executor

  /** Every registered session is stored under its own id. */
  ghost predicate Keyed(e: Exec)
  {
    forall k :: k in e.sessions ==> e.sessions[k].id == k
  }

  /** The executor invariant: the iteration order lists each registered id
      once; sessions are stored under their ids; only registered sessions run,
      and no more of them than the limit; every registered session's file
      holds exactly the in-memory session. */
  ghost predicate Valid(e: Exec)
  {
    && (forall i, j :: 0 <= i < j < |e.order| ==> e.order[i] != e.order[j])
    && (forall k :: k in e.sessions <==> k in e.order)
    && Keyed(e)
    && e.active <= e.sessions.Keys
    && |e.active| <= e.config.maxConcurrentSessions
    && (forall k :: k in e.sessions ==> k in e.disk.sessions && e.disk.sessions[k].session == e.sessions[k])
    && FlowFiles.WellKeyed(e.disk)
  }

  /** A new executor satisfies the invariant. */
  lemma InitValid(c: Config)
    ensures Valid(Init(c))
  {
  }

  /** Writing a session keeps the invariant, whatever the session. */
  lemma PutValid(e: Exec, s: Session, now: int)
    requires Valid(e)
    ensures Valid(Put(e, s, now))
    ensures Put(e, s, now).sessions.Keys == e.sessions.Keys + {s.id}
    ensures s.id in e.sessions ==> Put(e, s, now).order == e.order
    ensures Put(e, s, now).disk.messages == e.disk.messages
  {
    FlowFiles.WriteSessionFileFacts(e.disk, s, now);
    PutOrder(e, s, now);
  }

  /** Writing a session keeps the iteration order listing each registered id
      once. */
  lemma PutOrder(e: Exec, s: Session, now: int)
    requires forall i, j :: 0 <= i < j < |e.order| ==> e.order[i] != e.order[j]
    requires forall k :: k in e.sessions <==> k in e.order
    ensures var r := Put(e, s, now);
      && (forall i, j :: 0 <= i < j < |r.order| ==> r.order[i] != r.order[j])
      && (forall k :: k in r.sessions <==> k in r.order)
  {
    var r := Put(e, s, now);
    if s.id !in e.sessions {
      assert r.order == e.order + [s.id];
      forall i, j | 0 <= i < j < |r.order| ensures r.order[i] != r.order[j] {
        if j == |e.order| {
          assert r.order[i] == e.order[i];
        }
      }
    }
  }

  lemma SendValid(e: Exec, m: SessionMessage, now: int)
    requires Valid(e)
    ensures Valid(Send(e, m, now))
  {
  }

  lemma ActivateValid(e: Exec, id: string, now: int)
    requires Valid(e)
    ensures Valid(Activate(e, id, now).0)
    ensures Activate(e, id, now).0.sessions.Keys == e.sessions.Keys
    ensures Activate(e, id, now).0.order == e.order
    ensures Activate(e, id, now).0.disk.messages == e.disk.messages
  {
    if Activate(e, id, now).1 == Activated {
      var e1 := e.(active := e.active + {id});
      assert Valid(e1);
      PutValid(e1, e.sessions[id].(status := Active), now);
    }
  }

  lemma CreateSessionValid(e: Exec, s: Session, now: int)
    requires Valid(e)
    ensures Valid(CreateSession(e, s, now))
    ensures CreateSession(e, s, now).sessions.Keys == e.sessions.Keys + {s.id}
  {
    PutValid(e, s, now);
    if s.kind.Manager? {
      ActivateValid(Put(e, s, now), s.id, now);
    }
  }

  // ---------------------------------------------------------------- recheck

  /** A recheck keeps the invariant, the registry's ids and the iteration
      order. */
  lemma {:induction false} RecheckOverValid(e: Exec, ids: seq<string>, now: int)
    requires Valid(e)
    ensures var r := RecheckOver(e, ids, now);
      Valid(r) && r.sessions.Keys == e.sessions.Keys && r.order == e.order
    decreases |ids|
  {
    if |ids| > 0 {
      var id := ids[0];
      ActivateValid(e, id, now);
      var e1 := if id in e.sessions && e.sessions[id].status == Idle && id !in e.active
        then Activate(e, id, now).0 else e;
      RecheckOverValid(e1, ids[1..], now);
    }
  }

  lemma KeyedActivate(e: Exec, id: string, now: int)
    requires Keyed(e)
    ensures Keyed(Activate(e, id, now).0)
    ensures forall k :: k in e.sessions && k !in Activate(e, id, now).0.active ==>
      k in Activate(e, id, now).0.sessions && Activate(e, id, now).0.sessions[k] == e.sessions[k]
  {
  }

  /** The only sessions a recheck changes are idle, activatable sessions it
      starts; each becomes active and changes in nothing else. */
  lemma {:induction false} RecheckOverChanges(e: Exec, ids: seq<string>, now: int)
    requires Keyed(e)
    ensures var r := RecheckOver(e, ids, now);
      && Keyed(r)
      && (forall k :: k in r.active && k !in e.active ==>
            && k in e.sessions && e.sessions[k].status == Idle && CanActivate(e.sessions[k])
            && k in r.sessions && r.sessions[k] == e.sessions[k].(status := Active))
      && (forall k :: k in e.sessions && (k !in r.active || k in e.active) ==>
            k in r.sessions && r.sessions[k] == e.sessions[k])
    decreases |ids|
  {
    if |ids| > 0 {
      var id := ids[0];
      KeyedActivate(e, id, now);
      var e1 := if id in e.sessions && e.sessions[id].status == Idle && id !in e.active
        then Activate(e, id, now).0 else e;
      RecheckOverChanges(e1, ids[1..], now);
      var r := RecheckOver(e1, ids[1..], now);
      forall k | k in r.active && k !in e.active
        ensures k in e.sessions && e.sessions[k].status == Idle && CanActivate(e.sessions[k])
        ensures k in r.sessions && r.sessions[k] == e.sessions[k].(status := Active)
      {
        if k in e1.active {
          assert k == id;
        }
      }
      forall k | k in e.sessions && (k !in r.active || k in e.active)
        ensures k in r.sessions && r.sessions[k] == e.sessions[k]
      {
        assert k !in e1.active || k in e.active;
      }
    }
  }

  /** A session a recheck has nothing more to do for: it is not an idle,
      stopped session, or the limit is reached, or it cannot start yet. */
  ghost predicate Settled(e: Exec, k: string)
  {
    k in e.sessions && e.sessions[k].status == Idle && k !in e.active ==>
      |e.active| >= e.config.maxConcurrentSessions || !CanActivate(e.sessions[k])
  }

  /** After a recheck every id it walked is settled, and so is every id that
      was settled before. */
  lemma {:induction false} RecheckOverSettles(e: Exec, ids: seq<string>, now: int)
    requires Valid(e)
    ensures forall k :: k in ids ==> Settled(RecheckOver(e, ids, now), k)
    ensures forall k :: Settled(e, k) ==> Settled(RecheckOver(e, ids, now), k)
    decreases |ids|
  {
    if |ids| > 0 {
      var id := ids[0];
      var e1 := if id in e.sessions && e.sessions[id].status == Idle && id !in e.active
        then Activate(e, id, now).0 else e;
      ActivateValid(e, id, now);
      RecheckOverSettles(e1, ids[1..], now);
      RecheckOverChanges(e1, ids[1..], now);
      var r := RecheckOver(e1, ids[1..], now);
      SubsetCard(e1.active, r.active);
      SubsetCard(e.active, e1.active);
      assert Settled(e1, id);
      forall k | Settled(e, k) ensures Settled(e1, k) {
      }
      forall k | Settled(e1, k) ensures Settled(r, k) {
      }
    }
  }

  /** A recheck over settled ids changes nothing. */
  lemma {:induction false} RecheckOverSettled(e: Exec, ids: seq<string>, now: int)
    requires forall k :: k in ids ==> Settled(e, k)
    ensures RecheckOver(e, ids, now) == e
    decreases |ids|
  {
    if |ids| > 0 {
      assert Settled(e, ids[0]);
      RecheckOverSettled(e, ids[1..], now);
    }
  }

  /** `checkQueuedSessions` is idempotent: a second recheck finds nothing to
      start. */
  lemma RecheckIdempotent(e: Exec, now: int)
    requires Valid(e)
    ensures Recheck(Recheck(e, now), now) == Recheck(e, now)
  {
    RecheckOverSettles(e, e.order, now);
    RecheckOverValid(e, e.order, now);
    RecheckOverSettled(Recheck(e, now), e.order, now);
  }

  // ---------------------------------------------------------------- activation

  /** Activating twice is activating once: the second call finds the session
      running, or meets the same refusal, and changes nothing. */
  lemma ActivateIdempotent(e: Exec, id: string, now: int)
    requires Keyed(e)
    ensures var r := Activate(e, id, now);
      Activate(r.0, id, now).0 == r.0
      && (r.1 == Activated ==> Activate(r.0, id, now).1 == Ignored)
      && (r.1 != Activated ==> Activate(r.0, id, now).1 == r.1)
  {
  }

  /** The limit is checked before the precondition: at the limit even a
      manager, which may always start, is queued and nothing changes. */
  lemma ManagerQueuedAtLimit(e: Exec, id: string, now: int)
    requires id in e.sessions && id !in e.active && e.sessions[id].kind.Manager?
    requires |e.active| >= e.config.maxConcurrentSessions
    ensures Activate(e, id, now) == (e, Queued)
  {
  }

  /** Below the limit an idle session that may start is activated: it is
      running, its status is active, and its file says so. */
  lemma ActivateStarts(e: Exec, id: string, now: int)
    requires Valid(e)
    requires id in e.sessions && id !in e.active && CanActivate(e.sessions[id])
    requires |e.active| < e.config.maxConcurrentSessions
    ensures var r := Activate(e, id, now);
      && r.1 == Activated
      && id in r.0.active
      && r.0.sessions[id].status == Active
      && r.0.disk.sessions[id] == FlowFiles.SessionRecord(r.0.sessions[id], now)
  {
  }

  /** Pausing a running session frees a place under the limit, so resuming it
      starts it again. */
  lemma PauseThenResume(e: Exec, id: string, now: int)
    requires Valid(e)
    requires id in e.active && CanActivate(e.sessions[id])
    ensures var p := Pause(e, id, now);
      && Valid(p)
      && id !in p.active && p.sessions[id].status == Idle
      && Resume(p, id, now).1 == Activated
      && Resume(p, id, now).0.sessions[id].status == Active
  {
    var e1 := e.(active := e.active - {id});
    assert Valid(e1);
    PutValid(e1, e.sessions[id].(status := Idle), now);
  }

  lemma PauseValid(e: Exec, id: string, now: int)
    requires Valid(e)
    ensures Valid(Pause(e, id, now))
  {
    if id in e.sessions && id in e.active {
      var e1 := e.(active := e.active - {id});
      assert Valid(e1);
      PutValid(e1, e.sessions[id].(status := Idle), now);
    }
  }

  /** Stopping pauses every running session: nothing runs afterwards, every
      session that ran is idle, and the invariant holds. */
  lemma StopValid(e: Exec, now: int)
    requires Valid(e)
    ensures Valid(Stop(e, now))
    ensures Stop(e, now).active == {}
    ensures forall k :: k in e.active ==> Stop(e, now).sessions[k].status == Idle
  {
    StopKeyed(e, now);
    StopMirrored(e, now);
  }

  lemma StopKeyed(e: Exec, now: int)
    requires Keyed(e) && FlowFiles.WellKeyed(e.disk)
    ensures Keyed(Stop(e, now)) && FlowFiles.WellKeyed(Stop(e, now).disk)
  {
    var paused := Paused(e);
    assert forall k :: k in paused ==> paused[k].id == k;
  }

  /** After `stop` every session file still holds the in-memory session. */
  lemma StopMirrored(e: Exec, now: int)
    requires forall k :: k in e.sessions ==> k in e.disk.sessions && e.disk.sessions[k].session == e.sessions[k]
    ensures var r := Stop(e, now);
      forall k :: k in r.sessions ==> k in r.disk.sessions && r.disk.sessions[k].session == r.sessions[k]
  {
    var r := Stop(e, now);
    var paused := Paused(e);
    forall k | k in r.sessions
      ensures k in r.disk.sessions && r.disk.sessions[k].session == r.sessions[k]
    {
      if k in paused {
        assert r.disk.sessions[k] == FlowFiles.SessionRecord(paused[k], now);
      } else {
        assert r.disk.sessions[k] == e.disk.sessions[k];
      }
    }
  }


  // ---------------------------------------------------------------- spawning

  /** The identifiers `xs` are pairwise distinct and name no registered
      session. */
  ghost predicate FreshIds(e: Exec, xs: seq<string>)
  {
    && Distinct(xs)
    && (forall i :: 0 <= i < |xs| ==> xs[i] !in e.sessions)
  }

  predicate Distinct(xs: seq<string>)
  {
    forall i, j :: 0 <= i < j < |xs| ==> xs[i] != xs[j]
  }

  /** The tail of a distinct sequence is distinct and avoids its head. */
  lemma DistinctTail(xs: seq<string>)
    requires |xs| > 0 && Distinct(xs)
    ensures Distinct(xs[1..]) && xs[0] !in xs[1..]
  {
    forall i | 0 <= i < |xs| - 1
      ensures xs[1..][i] != xs[0]
    {
      assert xs[1..][i] == xs[i + 1];
    }
  }

  lemma DrawnCons(ids: nat -> string, start: nat, stride: nat, n: nat)
    requires n > 0
    ensures Drawn(ids, start, stride, n) == [ids(start)] + Drawn(ids, start + stride, stride, n - 1)
  {
  }

  /** The j-th drawn identifier is the one at position `start + j * stride`:
      the k-th child of a spawn takes its ids from a fixed offset of the
      shared counter. */
  lemma {:induction false} DrawnAt(ids: nat -> string, start: nat, stride: nat, n: nat)
    ensures forall j :: 0 <= j < n ==> Drawn(ids, start, stride, n)[j] == ids(start + j * stride)
    decreases n
  {
    if n > 0 {
      var r := Drawn(ids, start, stride, n);
      var rest := Drawn(ids, start + stride, stride, n - 1);
      DrawnAt(ids, start + stride, stride, n - 1);
      assert r == [ids(start)] + rest;
      forall j | 0 <= j < n ensures r[j] == ids(start + j * stride) {
        if j > 0 {
          var p: nat := start + stride + (j - 1) * stride;
          assert rest[j - 1] == ids(p);
          assert p == start + j * stride;
          assert r[j] == rest[j - 1];
        } else {
          assert start + j * stride == start;
        }
      }
    }
  }

  /** Looking up a concatenation of id lists is the concatenation of the
      lookups. */
  lemma {:induction false} LookupAppend(sessions: map<string, Session>, a: seq<string>, b: seq<string>)
    ensures Lookup(sessions, a + b) == Lookup(sessions, a) + Lookup(sessions, b)
    decreases |a|
  {
    if |a| > 0 {
      var h := LookupHead(sessions, a[0]);
      LookupCons(sessions, a);
      LookupCons(sessions, a + b);
      assert (a + b)[0] == a[0] && (a + b)[1..] == a[1..] + b;
      LookupAppend(sessions, a[1..], b);
      ConcatAssoc(h, Lookup(sessions, a[1..]), Lookup(sessions, b));
    } else {
      EmptyPrefix(a, b);
    }
  }

  lemma ConcatAssoc(x: seq<Session>, y: seq<Session>, z: seq<Session>)
    ensures x + (y + z) == (x + y) + z
  {
  }

  lemma EmptyPrefix(a: seq<string>, b: seq<string>)
    requires |a| == 0
    ensures a + b == b
  {
  }

  /** What the first id of a list contributes to its lookup. */
  function LookupHead(sessions: map<string, Session>, k: string): seq<Session>
  {
    if k in sessions then [sessions[k]] else []
  }

  lemma LookupCons(sessions: map<string, Session>, ids: seq<string>)
    requires |ids| > 0
    ensures Lookup(sessions, ids) == LookupHead(sessions, ids[0]) + Lookup(sessions, ids[1..])
  {
  }

  /** `getAllSessions` follows insertion order: one id yields its session
      when it is registered and nothing otherwise, and the lookup of a list
      is the lookups of its ids one after the other. */
  lemma LookupInOrder(sessions: map<string, Session>, a: seq<string>, b: seq<string>, k: string)
    ensures Lookup(sessions, a + b) == Lookup(sessions, a) + Lookup(sessions, b)
    ensures Lookup(sessions, [k]) == if k in sessions then [sessions[k]] else []
  {
    LookupAppend(sessions, a, b);
    assert [k][1..] == [];
  }

  /** One supervisor: registered under its id, running set untouched, one
      message appended. */
  lemma SupervisorStep(e: Exec, managerId: string, d: Parsers.SupervisorDescriptor, supId: string, msgId: string, now: int)
    ensures var e1 := CreateSupervisorFromManager(e, managerId, d, supId, msgId, now);
      && e1.active == e.active
      && e1.sessions == e.sessions[supId := NewSupervisor(supId, managerId, d.component, now)]
      && e1.queue == e.queue + [SessionMessage(msgId, managerId, supId, TaskAssignment,
                                               PlanPayload(WorkPlan(d.component, [], None)), now)]
    ensures Valid(e) ==> Valid(CreateSupervisorFromManager(e, managerId, d, supId, msgId, now))
  {
    var sup := NewSupervisor(supId, managerId, d.component, now);
    if Valid(e) {
      PutValid(e, sup, now);
      SendValid(Put(e, sup, now), SessionMessage(msgId, managerId, supId, TaskAssignment,
                                                 PlanPayload(WorkPlan(d.component, [], None)), now), now);
    }
  }

  /** One worker: registered under its id, running set untouched, one message
      appended. */
  lemma WorkerStep(e: Exec, supervisorId: string, d: Parsers.WorkerDescriptor, workerId: string, taskId: string, msgId: string, now: int)
    ensures var e1 := CreateWorkerFromSupervisor(e, supervisorId, d, workerId, taskId, msgId, now);
      var w := NewWorker(workerId, taskId, supervisorId, d, now);
      && e1.active == e.active
      && e1.sessions == e.sessions[workerId := w]
      && e1.queue == e.queue + [SessionMessage(msgId, supervisorId, workerId, TaskAssignment,
                                               CallPayload(w.kind.requestCall.value), now)]
    ensures Valid(e) ==> Valid(CreateWorkerFromSupervisor(e, supervisorId, d, workerId, taskId, msgId, now))
  {
    var w := NewWorker(workerId, taskId, supervisorId, d, now);
    if Valid(e) {
      PutValid(e, w, now);
      SendValid(Put(e, w, now), SessionMessage(msgId, supervisorId, workerId, TaskAssignment,
                                               CallPayload(w.kind.requestCall.value), now), now);
    }
  }

  lemma {:induction false} SpawnSupervisorsValid(e: Exec, managerId: string, ds: seq<Parsers.SupervisorDescriptor>,
                                                 ids: nat -> string, k: nat, now: int)
    requires Valid(e)
    ensures Valid(SpawnSupervisors(e, managerId, ds, ids, k, now))
    decreases |ds|
  {
    if |ds| > 0 {
      SupervisorStep(e, managerId, ds[0], ids(k), ids(k + 1), now);
      var e1 := CreateSupervisorFromManager(e, managerId, ds[0], ids(k), ids(k + 1), now);
      SpawnSupervisorsValid(e1, managerId, ds[1..], ids, k + 2, now);
    }
  }

  lemma {:induction false} SpawnWorkersValid(e: Exec, supervisorId: string, ds: seq<Parsers.WorkerDescriptor>,
                                             ids: nat -> string, k: nat, now: int)
    requires Valid(e)
    ensures Valid(SpawnWorkers(e, supervisorId, ds, ids, k, now))
    decreases |ds|
  {
    if |ds| > 0 {
      WorkerStep(e, supervisorId, ds[0], ids(k), ids(k + 1), ids(k + 2), now);
      var e1 := CreateWorkerFromSupervisor(e, supervisorId, ds[0], ids(k), ids(k + 1), ids(k + 2), now);
      SpawnWorkersValid(e1, supervisorId, ds[1..], ids, k + 3, now);
    }
  }

  /** The sessions `createSupervisorFromManager` registers, one per
      descriptor, each under the next drawn identifier (a reference
      definition on the session map alone). */
  ghost function SupervisorSessions(m: map<string, Session>, managerId: string, ds: seq<Parsers.SupervisorDescriptor>,
                                    ids: nat -> string, k: nat, now: int): map<string, Session>
    decreases |ds|
  {
    if |ds| == 0 then m
    else SupervisorSessions(m[ids(k) := NewSupervisor(ids(k), managerId, ds[0].component, now)], managerId, ds[1..], ids, k + 2, now)
  }

  /** The `task_assignment` messages the manager sends, one per supervisor,
      in creation order. */
  ghost function SupervisorAssignments(managerId: string, ds: seq<Parsers.SupervisorDescriptor>,
                                       ids: nat -> string, k: nat, now: int): seq<SessionMessage>
    decreases |ds|
  {
    if |ds| == 0 then []
    else [SessionMessage(ids(k + 1), managerId, ids(k), TaskAssignment, PlanPayload(WorkPlan(ds[0].component, [], None)), now)]
         + SupervisorAssignments(managerId, ds[1..], ids, k + 2, now)
  }

  ghost function WorkerSessions(m: map<string, Session>, supervisorId: string, ds: seq<Parsers.WorkerDescriptor>,
                                ids: nat -> string, k: nat, now: int): map<string, Session>
    decreases |ds|
  {
    if |ds| == 0 then m
    else WorkerSessions(m[ids(k) := NewWorker(ids(k), ids(k + 1), supervisorId, ds[0], now)], supervisorId, ds[1..], ids, k + 3, now)
  }

  ghost function WorkerAssignments(supervisorId: string, ds: seq<Parsers.WorkerDescriptor>,
                                   ids: nat -> string, k: nat, now: int): seq<SessionMessage>
    decreases |ds|
  {
    if |ds| == 0 then []
    else [SessionMessage(ids(k + 2), supervisorId, ids(k), TaskAssignment,
                         CallPayload(NewWorker(ids(k), ids(k + 1), supervisorId, ds[0], now).kind.requestCall.value), now)]
         + WorkerAssignments(supervisorId, ds[1..], ids, k + 3, now)
  }

  /** Creating supervisors registers exactly the reference sessions and
      appends exactly the reference messages; nothing starts running. */
  lemma {:induction false} SpawnSupervisorsEffect(e: Exec, managerId: string, ds: seq<Parsers.SupervisorDescriptor>,
                                                  ids: nat -> string, k: nat, now: int)
    ensures var r := SpawnSupervisors(e, managerId, ds, ids, k, now);
      && r.sessions == SupervisorSessions(e.sessions, managerId, ds, ids, k, now)
      && r.queue == e.queue + SupervisorAssignments(managerId, ds, ids, k, now)
    decreases |ds|
  {
    if |ds| > 0 {
      SupervisorStep(e, managerId, ds[0], ids(k), ids(k + 1), now);
      var e1 := CreateSupervisorFromManager(e, managerId, ds[0], ids(k), ids(k + 1), now);
      SpawnSupervisorsEffect(e1, managerId, ds[1..], ids, k + 2, now);
      var head := SessionMessage(ids(k + 1), managerId, ids(k), TaskAssignment, PlanPayload(WorkPlan(ds[0].component, [], None)), now);
      assert e.queue + [head] + SupervisorAssignments(managerId, ds[1..], ids, k + 2, now)
          == e.queue + ([head] + SupervisorAssignments(managerId, ds[1..], ids, k + 2, now));
    }
  }

  lemma {:induction false} SpawnWorkersEffect(e: Exec, supervisorId: string, ds: seq<Parsers.WorkerDescriptor>,
                                              ids: nat -> string, k: nat, now: int)
    ensures var r := SpawnWorkers(e, supervisorId, ds, ids, k, now);
      && r.sessions == WorkerSessions(e.sessions, supervisorId, ds, ids, k, now)
      && r.queue == e.queue + WorkerAssignments(supervisorId, ds, ids, k, now)
    decreases |ds|
  {
    if |ds| > 0 {
      WorkerStep(e, supervisorId, ds[0], ids(k), ids(k + 1), ids(k + 2), now);
      var e1 := CreateWorkerFromSupervisor(e, supervisorId, ds[0], ids(k), ids(k + 1), ids(k + 2), now);
      SpawnWorkersEffect(e1, supervisorId, ds[1..], ids, k + 3, now);
      var head := SessionMessage(ids(k + 2), supervisorId, ids(k), TaskAssignment,
                                 CallPayload(NewWorker(ids(k), ids(k + 1), supervisorId, ds[0], now).kind.requestCall.value), now);
      assert e.queue + [head] + WorkerAssignments(supervisorId, ds[1..], ids, k + 3, now)
          == e.queue + ([head] + WorkerAssignments(supervisorId, ds[1..], ids, k + 3, now));
    }
  }

  /** The reference map registers exactly the drawn identifiers and leaves
      every other session alone. */
  lemma {:induction false} SupervisorSessionsKeys(m: map<string, Session>, managerId: string, ds: seq<Parsers.SupervisorDescriptor>,
                                                  ids: nat -> string, k: nat, now: int)
    ensures var r := SupervisorSessions(m, managerId, ds, ids, k, now); var drawn := Drawn(ids, k, 2, |ds|);
      && (forall x :: x in r <==> x in m || x in drawn)
      && (forall x :: x in m && x !in drawn ==> r[x] == m[x])
    decreases |ds|
  {
    if |ds| > 0 {
      DrawnCons(ids, k, 2, |ds|);
      var m1 := m[ids(k) := NewSupervisor(ids(k), managerId, ds[0].component, now)];
      SupervisorSessionsKeys(m1, managerId, ds[1..], ids, k + 2, now);
      var rest := Drawn(ids, k + 2, 2, |ds| - 1);
      assert |ds[1..]| == |ds| - 1;
      forall x
        ensures x in SupervisorSessions(m, managerId, ds, ids, k, now) <==> x in m || x in Drawn(ids, k, 2, |ds|)
      {
        assert x in m1 <==> x in m || x == ids(k);
      }
    } else {
      assert Drawn(ids, k, 2, 0) == [];
    }
  }

  /** With distinct identifiers, the j-th drawn one holds the j-th
      descriptor's supervisor. */
  lemma {:induction false} SupervisorSessionsAt(m: map<string, Session>, managerId: string, ds: seq<Parsers.SupervisorDescriptor>,
                                                ids: nat -> string, k: nat, now: int)
    requires Distinct(Drawn(ids, k, 2, |ds|))
    ensures var r := SupervisorSessions(m, managerId, ds, ids, k, now); var drawn := Drawn(ids, k, 2, |ds|);
      forall j :: 0 <= j < |ds| ==> drawn[j] in r && r[drawn[j]] == NewSupervisor(drawn[j], managerId, ds[j].component, now)
    decreases |ds|
  {
    if |ds| > 0 {
      var drawn := Drawn(ids, k, 2, |ds|);
      var rest := Drawn(ids, k + 2, 2, |ds| - 1);
      DrawnCons(ids, k, 2, |ds|);
      DistinctTail(drawn);
      assert drawn[1..] == rest;
      var m1 := m[ids(k) := NewSupervisor(ids(k), managerId, ds[0].component, now)];
      SupervisorSessionsAt(m1, managerId, ds[1..], ids, k + 2, now);
      SupervisorSessionsKeys(m1, managerId, ds[1..], ids, k + 2, now);
      var r := SupervisorSessions(m1, managerId, ds[1..], ids, k + 2, now);
      forall j | 0 <= j < |ds|
        ensures drawn[j] in r && r[drawn[j]] == NewSupervisor(drawn[j], managerId, ds[j].component, now)
      {
        if j > 0 {
          assert drawn[j] == rest[j - 1] && ds[j] == ds[1..][j - 1];
        }
      }
    }
  }

  lemma {:induction false} WorkerSessionsKeys(m: map<string, Session>, supervisorId: string, ds: seq<Parsers.WorkerDescriptor>,
                                              ids: nat -> string, k: nat, now: int)
    ensures var r := WorkerSessions(m, supervisorId, ds, ids, k, now); var drawn := Drawn(ids, k, 3, |ds|);
      && (forall x :: x in r <==> x in m || x in drawn)
      && (forall x :: x in m && x !in drawn ==> r[x] == m[x])
    decreases |ds|
  {
    if |ds| > 0 {
      DrawnCons(ids, k, 3, |ds|);
      var m1 := m[ids(k) := NewWorker(ids(k), ids(k + 1), supervisorId, ds[0], now)];
      WorkerSessionsKeys(m1, supervisorId, ds[1..], ids, k + 3, now);
      var rest := Drawn(ids, k + 3, 3, |ds| - 1);
      assert |ds[1..]| == |ds| - 1;
      forall x
        ensures x in WorkerSessions(m, supervisorId, ds, ids, k, now) <==> x in m || x in Drawn(ids, k, 3, |ds|)
      {
        assert x in m1 <==> x in m || x == ids(k);
      }
    } else {
      assert Drawn(ids, k, 3, 0) == [];
    }
  }

  lemma {:induction false} WorkerSessionsAt(m: map<string, Session>, supervisorId: string, ds: seq<Parsers.WorkerDescriptor>,
                                            ids: nat -> string, k: nat, now: int)
    requires Distinct(Drawn(ids, k, 3, |ds|))
    ensures var r := WorkerSessions(m, supervisorId, ds, ids, k, now);
      var drawn := Drawn(ids, k, 3, |ds|); var tasks := Drawn(ids, k + 1, 3, |ds|);
      forall j :: 0 <= j < |ds| ==> drawn[j] in r && r[drawn[j]] == NewWorker(drawn[j], tasks[j], supervisorId, ds[j], now)
    decreases |ds|
  {
    if |ds| > 0 {
      var drawn := Drawn(ids, k, 3, |ds|);
      var tasks := Drawn(ids, k + 1, 3, |ds|);
      var rest := Drawn(ids, k + 3, 3, |ds| - 1);
      DrawnCons(ids, k, 3, |ds|);
      DrawnCons(ids, k + 1, 3, |ds|);
      DistinctTail(drawn);
      assert drawn[1..] == rest;
      var m1 := m[ids(k) := NewWorker(ids(k), ids(k + 1), supervisorId, ds[0], now)];
      WorkerSessionsAt(m1, supervisorId, ds[1..], ids, k + 3, now);
      WorkerSessionsKeys(m1, supervisorId, ds[1..], ids, k + 3, now);
      var r := WorkerSessions(m1, supervisorId, ds[1..], ids, k + 3, now);
      forall j | 0 <= j < |ds|
        ensures drawn[j] in r && r[drawn[j]] == NewWorker(drawn[j], tasks[j], supervisorId, ds[j], now)
      {
        if j > 0 {
          assert drawn[j] == rest[j - 1] && tasks[j] == Drawn(ids, k + 4, 3, |ds| - 1)[j - 1] && ds[j] == ds[1..][j - 1];
        }
      }
    }
  }

  /** The j-th assignment goes from the manager to the j-th drawn supervisor,
      under the identifier drawn right after it, carrying the work plan. */
  lemma {:induction false} SupervisorAssignmentsAt(managerId: string, ds: seq<Parsers.SupervisorDescriptor>,
                                                   ids: nat -> string, k: nat, now: int)
    ensures var a := SupervisorAssignments(managerId, ds, ids, k, now);
      var drawn := Drawn(ids, k, 2, |ds|); var msgIds := Drawn(ids, k + 1, 2, |ds|);
      && |a| == |ds|
      && forall j :: 0 <= j < |ds| ==>
        a[j] == SessionMessage(msgIds[j], managerId, drawn[j], TaskAssignment, PlanPayload(WorkPlan(ds[j].component, [], None)), now)
    decreases |ds|
  {
    if |ds| > 0 {
      DrawnCons(ids, k, 2, |ds|);
      DrawnCons(ids, k + 1, 2, |ds|);
      SupervisorAssignmentsAt(managerId, ds[1..], ids, k + 2, now);
      assert forall j :: 1 <= j < |ds| ==> ds[j] == ds[1..][j - 1];
    }
  }

  lemma {:induction false} WorkerAssignmentsAt(supervisorId: string, ds: seq<Parsers.WorkerDescriptor>,
                                               ids: nat -> string, k: nat, now: int)
    ensures var a := WorkerAssignments(supervisorId, ds, ids, k, now);
      var drawn := Drawn(ids, k, 3, |ds|); var tasks := Drawn(ids, k + 1, 3, |ds|); var msgIds := Drawn(ids, k + 2, 3, |ds|);
      && |a| == |ds|
      && forall j :: 0 <= j < |ds| ==>
        a[j] == SessionMessage(msgIds[j], supervisorId, drawn[j], TaskAssignment,
                               CallPayload(NewWorker(drawn[j], tasks[j], supervisorId, ds[j], now).kind.requestCall.value), now)
    decreases |ds|
  {
    if |ds| > 0 {
      DrawnCons(ids, k, 3, |ds|);
      DrawnCons(ids, k + 1, 3, |ds|);
      DrawnCons(ids, k + 2, 3, |ds|);
      WorkerAssignmentsAt(supervisorId, ds[1..], ids, k + 3, now);
      assert forall j :: 1 <= j < |ds| ==> ds[j] == ds[1..][j - 1];
    }
  }

  // ---------------------------------------------------------------- execution

  /** `completeSession`: the session is written as completed and leaves the
      running set; the recheck that follows changes only the idle sessions it
      starts, and sends nothing. */
  lemma CompleteFacts(e: Exec, s: Session, now: int)
    requires Keyed(e)
    ensures var r := Complete(e, s, now);
      && s.id in r.sessions && r.sessions[s.id] == s.(status := Completed)
      && s.id !in r.active
      && r.queue == e.queue
      && (forall k :: k in e.sessions && k != s.id && (k !in r.active || k in e.active) ==>
            k in r.sessions && r.sessions[k] == e.sessions[k])
      && (forall k :: k in r.active && k !in e.active ==>
            k in e.sessions && e.sessions[k].status == Idle && CanActivate(e.sessions[k])
            && k in r.sessions && r.sessions[k] == e.sessions[k].(status := Active))
  {
    var done := s.(status := Completed);
    var e2 := Put(e, done, now).(active := Put(e, done, now).active - {s.id});
    assert e2.sessions == e.sessions[s.id := done];
    assert e2.active == e.active - {s.id};
    assert Keyed(e2);
    RecheckOverChanges(e2, e2.order, now);
    var r := RecheckOver(e2, e2.order, now);
    assert r == Complete(e, s, now);
    assert e2.sessions[s.id].status == Completed;
  }

  lemma CompleteValid(e: Exec, s: Session, now: int)
    requires Valid(e)
    ensures Valid(Complete(e, s, now))
    ensures Complete(e, s, now).sessions.Keys == e.sessions.Keys + {s.id}
  {
    var done := s.(status := Completed);
    PutValid(e, done, now);
    var e1 := Put(e, done, now);
    var e2 := e1.(active := e1.active - {s.id});
    SubsetCard(e2.active, e1.active);
    assert Valid(e2);
    RecheckOverValid(e2, e2.order, now);
  }

  /** After completion every registered session is settled: none is left idle
      and able to start while there is room. */
  lemma CompleteSettles(e: Exec, s: Session, now: int)
    requires Valid(e)
    ensures forall k :: Settled(Complete(e, s, now), k)
  {
    var done := s.(status := Completed);
    PutValid(e, done, now);
    var e1 := Put(e, done, now);
    var e2 := e1.(active := e1.active - {s.id});
    SubsetCard(e2.active, e1.active);
    assert Valid(e2);
    RecheckOverSettles(e2, e2.order, now);
    RecheckOverValid(e2, e2.order, now);
    forall k ensures Settled(Complete(e, s, now), k) {
      if k !in e2.order {
        assert k !in Complete(e, s, now).sessions;
      }
    }
  }

  /** `handleSessionError`: the session is written with status `Error` and the
      message, leaves the running set, nothing else changes, and a parent with
      a non-empty id is sent one `error` message. */
  lemma FailFacts(e: Exec, s: Session, text: string, ids: nat -> string, now: int)
    ensures var r := Fail(e, s, text, ids, now);
      && r.sessions == e.sessions[s.id := s.(status := Error, error := Some(text))]
      && r.active == e.active - {s.id}
      && r.queue == e.queue + (if s.parentId.Some? && s.parentId.value != ""
                               then [SessionMessage(ids(0), s.id, s.parentId.value, ErrorMessage, ErrorPayload(text), now)]
                               else [])
  {
  }

  lemma FailValid(e: Exec, s: Session, text: string, ids: nat -> string, now: int)
    requires Valid(e)
    ensures Valid(Fail(e, s, text, ids, now))
  {
    var e1 := e.(active := e.active - {s.id});
    SubsetCard(e1.active, e.active);
    assert Valid(e1);
    var failed := s.(status := Error, error := Some(text));
    PutValid(e1, failed, now);
    if s.parentId.Some? && s.parentId.value != "" {
      SendValid(Put(e1, failed, now), SessionMessage(ids(0), s.id, s.parentId.value, ErrorMessage, ErrorPayload(text), now), now);
    }
  }

  /** Executing keeps the invariant, whatever the reply. */
  lemma ExecuteValid(e: Exec, id: string, reply: Result<string, string>, ids: nat -> string, now: int)
    requires Valid(e)
    ensures Valid(Execute(e, id, reply, ids, now))
  {
    if id in e.sessions {
      var s := e.sessions[id];
      if s.kind.Worker? && s.kind.requestCall.Some? {
        if reply.Failure? {
          ExecuteWorkerFailsValid(e, id, reply, ids, now);
        } else {
          ExecuteWorkerSucceedsValid(e, id, reply, ids, now);
        }
      } else if reply.Success? && !s.kind.Worker? {
        ExecuteSpawnsValid(e, id, reply, ids, now);
      } else {
        ExecuteFailsValid(e, id, reply, ids, now);
      }
    }
  }

  lemma ExecuteFailsValid(e: Exec, id: string, reply: Result<string, string>, ids: nat -> string, now: int)
    requires Valid(e) && id in e.sessions
    requires var s := e.sessions[id];
      (reply.Failure? && !s.kind.Worker?) || (s.kind.Worker? && s.kind.requestCall.None?)
    ensures Valid(Execute(e, id, reply, ids, now))
  {
    var s := e.sessions[id];
    var text := if s.kind.Worker? then MissingRequestCall else reply.error;
    ExecuteOtherUnfolds(e, id, reply, ids, now);
    FailValid(e, s, text, ids, now);
  }

  lemma ExecuteSpawnsValid(e: Exec, id: string, reply: Result<string, string>, ids: nat -> string, now: int)
    requires Valid(e) && id in e.sessions && !e.sessions[id].kind.Worker? && reply.Success?
    ensures Valid(Execute(e, id, reply, ids, now))
  {
    var s := e.sessions[id];
    var text := reply.value;
    var s1 := s.(messages := s.messages + [FlowMessage(ids(0), now, Assistant, text)]);
    assert reply == Success(text);
    ExecuteSuccessUnfolds(e, id, text, ids, now);
    if s.kind.Manager? {
      var ds := Parsers.ParseManagerResponse(text);
      SpawnSupervisorsValid(e, s.id, ds, ids, 1, now);
      CompleteValid(SpawnSupervisors(e, s.id, ds, ids, 1, now), s1, now);
    } else {
      var ds := Parsers.ParseSupervisorResponse(text);
      SpawnWorkersValid(e, s.id, ds, ids, 1, now);
      CompleteValid(SpawnWorkers(e, s.id, ds, ids, 1, now), s1, now);
    }
  }

  lemma ExecuteWorkerFailsValid(e: Exec, id: string, reply: Result<string, string>, ids: nat -> string, now: int)
    requires Valid(e) && id in e.sessions && reply.Failure?
    requires e.sessions[id].kind.Worker? && e.sessions[id].kind.requestCall.Some?
    ensures Valid(Execute(e, id, reply, ids, now))
  {
    var s := e.sessions[id];
    var text := reply.error;
    var started := s.(kind := Worker(s.kind.requestCall, StartedProgress(now)));
    ExecuteOtherUnfolds(e, id, reply, ids, now);
    PutValid(e, started, now);
    FailValid(Put(e, started, now), started, text, ids, now);
  }

  lemma ExecuteWorkerSucceedsValid(e: Exec, id: string, reply: Result<string, string>, ids: nat -> string, now: int)
    requires Valid(e) && id in e.sessions && reply.Success?
    requires e.sessions[id].kind.Worker? && e.sessions[id].kind.requestCall.Some?
    ensures Valid(Execute(e, id, reply, ids, now))
  {
    var s := e.sessions[id];
    var s1 := WorkerDone(s, s.kind.requestCall.value, reply.value, ids, now);
    var m := ResultNotice(s, reply.value, ids, now);
    var e1 := Put(e, s1, now);
    ExecuteOtherUnfolds(e, id, reply, ids, now);
    PutValid(e, s1, now);
    SendValid(e1, m, now);
    CompleteValid(Send(e1, m, now), s1, now);
  }


  /** A session whose call failed, or a worker without a request call (which
      fails before any call whatever the reply), ends in status `Error` with
      the error's message; a worker with a call keeps the progress it wrote
      before the call. The session leaves the running set, no other session
      changes, and only a parent with a non-empty id hears of it. */
  lemma ExecuteFailure(e: Exec, id: string, reply: Result<string, string>, ids: nat -> string, now: int)
    requires Keyed(e) && id in e.sessions
    requires reply.Failure? || (e.sessions[id].kind.Worker? && e.sessions[id].kind.requestCall.None?)
    ensures var s := e.sessions[id]; var r := Execute(e, id, reply, ids, now);
      var noCall := s.kind.Worker? && s.kind.requestCall.None?;
      var text := if noCall then MissingRequestCall else reply.error;
      var before := if s.kind.Worker? && !noCall then s.(kind := Worker(s.kind.requestCall, StartedProgress(now))) else s;
      && r.sessions == e.sessions[id := before.(status := Error, error := Some(text))]
      && r.active == e.active - {id}
      && r.queue == e.queue + (if s.parentId.Some? && s.parentId.value != ""
                               then [SessionMessage(ids(0), id, s.parentId.value, ErrorMessage, ErrorPayload(text), now)]
                               else [])
  {
    var s := e.sessions[id];
    if s.kind.Worker? && s.kind.requestCall.Some? {
      var started := s.(kind := Worker(s.kind.requestCall, StartedProgress(now)));
      FailFacts(Put(e, started, now), started, reply.error, ids, now);
      assert Put(e, started, now).sessions == e.sessions[id := started];
    } else if s.kind.Worker? {
      FailFacts(e, s, MissingRequestCall, ids, now);
    } else {
      FailFacts(e, s, reply.error, ids, now);
    }
  }

  /** A worker whose call succeeded records the reply as a message and as its
      successful result, finishes its progress, is completed and leaves the
      running set, and sends its parent one `result` message (to the empty id
      when it has no parent). Any other session changes only if the recheck
      starts it. */
  lemma ExecuteWorkerSuccess(e: Exec, id: string, text: string, ids: nat -> string, now: int)
    requires Keyed(e) && id in e.sessions
    requires e.sessions[id].kind.Worker? && e.sessions[id].kind.requestCall.Some?
    ensures var s := e.sessions[id]; var r := Execute(e, id, Success(text), ids, now);
      var result := TaskResult(true, Some(text), None);
      && id in r.sessions
      && r.sessions[id] == s.(status := Completed,
                              messages := s.messages + [FlowMessage(ids(0), now, Assistant, text)],
                              kind := Worker(Some(s.kind.requestCall.value.(result := Some(result))), FinishedProgress(now)))
      && id !in r.active
      && r.queue == e.queue + [SessionMessage(ids(1), id, s.parentId.GetOr(""), ResultMessage, ResultPayload(result), now)]
      && (forall k :: k in e.sessions && k != id && (k !in r.active || k in e.active) ==>
            k in r.sessions && r.sessions[k] == e.sessions[k])
  {
    var s := e.sessions[id];
    var s1 := WorkerDone(s, s.kind.requestCall.value, text, ids, now);
    var e2 := Send(Put(e, s1, now), ResultNotice(s, text, ids, now), now);
    assert e2.sessions == e.sessions[id := s1];
    assert Keyed(e2);
    CompleteFacts(e2, s1, now);
  }

  /** Sessions that are idle, stopped and able to start when a session
      completes are, afterwards, either started by the recheck (and changed in
      nothing but their status) or still idle because the limit is reached. */
  lemma CompleteStartsIdle(e: Exec, s: Session, now: int, xs: seq<string>)
    requires Valid(e)
    requires forall j :: 0 <= j < |xs| ==>
      && xs[j] in e.sessions && xs[j] !in e.active && xs[j] != s.id
      && e.sessions[xs[j]].status == Idle && CanActivate(e.sessions[xs[j]])
    ensures var r := Complete(e, s, now);
      forall j :: 0 <= j < |xs| ==>
        && xs[j] in r.sessions
        && r.sessions[xs[j]] == e.sessions[xs[j]].(status := if xs[j] in r.active then Active else Idle)
        && (xs[j] in r.active || |r.active| >= e.config.maxConcurrentSessions)
  {
    CompleteFacts(e, s, now);
    CompleteSettles(e, s, now);
    var r := Complete(e, s, now);
    assert r.config == e.config;
    forall j | 0 <= j < |xs|
      ensures && xs[j] in r.sessions
              && r.sessions[xs[j]] == e.sessions[xs[j]].(status := if xs[j] in r.active then Active else Idle)
              && (xs[j] in r.active || |r.active| >= e.config.maxConcurrentSessions)
    {
      assert Settled(r, xs[j]);
    }
  }

  /** Every other execution: a failed call or a worker without a request
      call fails the session; a worker with a call records its start and
      then either fails or finishes, reports to its parent and completes. */
  lemma ExecuteOtherUnfolds(e: Exec, id: string, reply: Result<string, string>, ids: nat -> string, now: int)
    requires id in e.sessions
    ensures var s := e.sessions[id]; var r := Execute(e, id, reply, ids, now);
      && (reply.Failure? && !s.kind.Worker? ==> r == Fail(e, s, reply.error, ids, now))
      && (s.kind.Worker? && s.kind.requestCall.None? ==> r == Fail(e, s, MissingRequestCall, ids, now))
      && (s.kind.Worker? && s.kind.requestCall.Some? ==>
            var started := s.(kind := Worker(s.kind.requestCall, StartedProgress(now)));
            && (reply.Failure? ==> r == Fail(Put(e, started, now), started, reply.error, ids, now))
            && (reply.Success? ==>
                  var s1 := WorkerDone(s, s.kind.requestCall.value, reply.value, ids, now);
                  r == Complete(Send(Put(e, s1, now), ResultNotice(s, reply.value, ids, now), now), s1, now)))
  {
  }

  /** A manager's or supervisor's successful execution is the creation of
      its children followed by its completion with the reply recorded. */
  lemma ExecuteSuccessUnfolds(e: Exec, id: string, text: string, ids: nat -> string, now: int)
    requires Keyed(e) && id in e.sessions
    ensures var s := e.sessions[id];
      var s1 := s.(messages := s.messages + [FlowMessage(ids(0), now, Assistant, text)]);
      && (s.kind.Manager? ==>
            Execute(e, id, Success(text), ids, now)
            == Complete(SpawnSupervisors(e, id, Parsers.ParseManagerResponse(text), ids, 1, now), s1, now))
      && (s.kind.Supervisor? ==>
            Execute(e, id, Success(text), ids, now)
            == Complete(SpawnWorkers(e, id, Parsers.ParseSupervisorResponse(text), ids, 1, now), s1, now))
  {
  }

  /** With fresh identifiers, creating the children keeps the invariant and
      the running set, leaves the parent as it was, queues exactly the
      assignments, and registers every child, idle and stopped, as built. */
  lemma SpawnSupervisorsFresh(e: Exec, managerId: string, ds: seq<Parsers.SupervisorDescriptor>, ids: nat -> string, k: nat, now: int)
    requires Valid(e) && managerId in e.sessions
    requires FreshIds(e, Drawn(ids, k, 2, |ds|))
    ensures var e1 := SpawnSupervisors(e, managerId, ds, ids, k, now); var drawn := Drawn(ids, k, 2, |ds|);
      && Valid(e1) && e1.active == e.active && e1.config == e.config
      && managerId in e1.sessions && e1.sessions[managerId] == e.sessions[managerId]
      && e1.queue == e.queue + SupervisorAssignments(managerId, ds, ids, k, now)
      && (forall j :: 0 <= j < |ds| ==>
            && drawn[j] in e1.sessions && drawn[j] !in e1.active && drawn[j] != managerId
            && e1.sessions[drawn[j]] == NewSupervisor(drawn[j], managerId, ds[j].component, now))
  {
    var drawn := Drawn(ids, k, 2, |ds|);
    SpawnSupervisorsValid(e, managerId, ds, ids, k, now);
    SpawnSupervisorsEffect(e, managerId, ds, ids, k, now);
    SupervisorSessionsKeys(e.sessions, managerId, ds, ids, k, now);
    SupervisorSessionsAt(e.sessions, managerId, ds, ids, k, now);
    assert managerId !in drawn;
  }




  /** With fresh identifiers, creating the children keeps the invariant and
      the running set, leaves the parent as it was, queues exactly the
      assignments, and registers every child, idle and stopped, as built. */
  lemma SpawnWorkersFresh(e: Exec, supervisorId: string, ds: seq<Parsers.WorkerDescriptor>, ids: nat -> string, k: nat, now: int)
    requires Valid(e) && supervisorId in e.sessions
    requires FreshIds(e, Drawn(ids, k, 3, |ds|))
    ensures var e1 := SpawnWorkers(e, supervisorId, ds, ids, k, now); var drawn := Drawn(ids, k, 3, |ds|); var tasks := Drawn(ids, k + 1, 3, |ds|);
      && Valid(e1) && e1.active == e.active && e1.config == e.config
      && supervisorId in e1.sessions && e1.sessions[supervisorId] == e.sessions[supervisorId]
      && e1.queue == e.queue + WorkerAssignments(supervisorId, ds, ids, k, now)
      && (forall j :: 0 <= j < |ds| ==>
            && drawn[j] in e1.sessions && drawn[j] !in e1.active && drawn[j] != supervisorId
            && e1.sessions[drawn[j]] == NewWorker(drawn[j], tasks[j], supervisorId, ds[j], now))
  {
    var drawn := Drawn(ids, k, 3, |ds|);
    SpawnWorkersValid(e, supervisorId, ds, ids, k, now);
    SpawnWorkersEffect(e, supervisorId, ds, ids, k, now);
    WorkerSessionsKeys(e.sessions, supervisorId, ds, ids, k, now);
    WorkerSessionsAt(e.sessions, supervisorId, ds, ids, k, now);
    assert supervisorId !in drawn;
  }



  // ---------------------------------------------------------------- messages

  /** Writing a registered session and offering it for activation keeps the
      invariant, the registry's ids and the message files. */
  lemma PutActivateValid(e: Exec, t: Session, now: int)
    requires Valid(e) && t.id in e.sessions
    ensures var r := Activate(Put(e, t, now), t.id, now).0;
      Valid(r) && r.sessions.Keys == e.sessions.Keys && r.disk.messages == e.disk.messages
  {
    var e1 := Put(e, t, now);
    PutValid(e, t, now);
    ActivateValid(e1, t.id, now);
  }

  lemma AssignValid(e: Exec, t: Session, payload: Payload, now: int)
    requires Valid(e) && t.id in e.sessions
    ensures var r := Assign(e, t, payload, now);
      Valid(r) && r.sessions.Keys == e.sessions.Keys && r.disk.messages == e.disk.messages
  {
    if t.kind.Supervisor? && payload.PlanPayload? {
      PutActivateValid(e, t.(kind := t.kind.(workPlan := Some(payload.plan))), now);
    } else if t.kind.Worker? && payload.CallPayload? {
      PutActivateValid(e, t.(kind := t.kind.(requestCall := Some(payload.call))), now);
    }
  }

  lemma StatusUpdateValid(e: Exec, t: Session, payload: Payload, now: int)
    requires Valid(e) && t.id in e.sessions
    ensures var r := Executor.StatusUpdate(e, t, payload, now);
      Valid(r) && r.sessions.Keys == e.sessions.Keys && r.disk.messages == e.disk.messages
  {
    var pr := ProgressOf(payload);
    PutValid(e, t.(progress := if pr.Some? && Truthy(pr.value) then pr else t.progress), now);
  }

  /** Handling a message for a registered session keeps the invariant and the
      registry's ids, and touches no message file. */
  lemma DispatchValid(e: Exec, m: SessionMessage, now: int)
    requires Valid(e) && m.toSessionId in e.sessions
    ensures var r := Dispatch(e, e.sessions[m.toSessionId], m, now);
      Valid(r) && r.sessions.Keys == e.sessions.Keys && r.disk.messages == e.disk.messages
  {
    var t := e.sessions[m.toSessionId];
    if m.msgType == TaskAssignment {
      AssignValid(e, t, m.payload, now);
    } else if m.msgType == StatusUpdate {
      StatusUpdateValid(e, t, m.payload, now);
    }
  }

  /** Handling one message keeps the invariant and the registry's ids. A
      message for a registered session has its file marked processed; one
      for an unknown session leaves everything as it was, its file still
      pending. No other message file changes, and results, errors and queries
      change no session. */
  lemma RouteValid(e: Exec, m: SessionMessage, now: int)
    requires Valid(e)
    ensures var r := Route(e, m, now);
      && Valid(r)
      && r.sessions.Keys == e.sessions.Keys
      && r.disk.messages.Keys == e.disk.messages.Keys
      && (forall k :: k in e.disk.messages && k != m.id ==> r.disk.messages[k] == e.disk.messages[k])
      && (m.toSessionId !in e.sessions ==> r == e)
      && (m.toSessionId in e.sessions && m.id in e.disk.messages ==>
            r.disk.messages[m.id] == e.disk.messages[m.id].(status := FlowFiles.Processed, processedAt := Some(now)))
      && (m.msgType in {ResultMessage, ErrorMessage, Query} ==> r.sessions == e.sessions && r.active == e.active)
  {
    if m.toSessionId in e.sessions {
      DispatchValid(e, m, now);
      var e1 := Dispatch(e, e.sessions[m.toSessionId], m, now);
      MarkProcessedValid(e1, m.id, now);
      if m.msgType != TaskAssignment && m.msgType != StatusUpdate {
        assert e1 == e;
      }
    }
  }

  /** Marking a message file processed keeps the invariant and changes that
      file alone. */
  lemma MarkProcessedValid(e: Exec, id: string, now: int)
    requires Valid(e)
    ensures var r := e.(disk := FlowFiles.MarkProcessed(e.disk, id, now));
      && Valid(r)
      && r.disk.messages.Keys == e.disk.messages.Keys
      && (forall k :: k in e.disk.messages && k != id ==> r.disk.messages[k] == e.disk.messages[k])
      && (id in e.disk.messages ==>
            r.disk.messages[id] == e.disk.messages[id].(status := FlowFiles.Processed, processedAt := Some(now)))
  {
    FlowFiles.MarkProcessedFacts(e.disk, id, now);
    assert FlowFiles.MarkProcessed(e.disk, id, now).sessions == e.disk.sessions;
  }

  /** A `task_assignment` to a supervisor installs the work plan, and to a
      worker installs the request call; the session is then running, or the
      limit is reached. Any other pairing of session and payload changes
      nothing but the message's file. */
  lemma RouteAssignment(e: Exec, m: SessionMessage, now: int)
    requires Valid(e)
    requires m.msgType == TaskAssignment && m.toSessionId in e.sessions
    ensures var r := Route(e, m, now); var id := m.toSessionId; var t := e.sessions[id];
      && id in r.sessions
      && match (t.kind, m.payload)
         case (Supervisor(_, c, w), PlanPayload(p)) =>
           && r.sessions[id].kind == Supervisor(Some(p), c, w)
           && r.sessions[id] == t.(kind := r.sessions[id].kind, status := r.sessions[id].status)
           && (id in r.active || |r.active| >= r.config.maxConcurrentSessions)
         case (Worker(_, tp), CallPayload(call)) =>
           && r.sessions[id].kind == Worker(Some(call), tp)
           && r.sessions[id] == t.(kind := r.sessions[id].kind, status := r.sessions[id].status)
           && (id in r.active || |r.active| >= r.config.maxConcurrentSessions)
         case _ => r.sessions == e.sessions && r.active == e.active
  {
    var id := m.toSessionId;
    var t := e.sessions[id];
    match (t.kind, m.payload)
    case (Supervisor(_, c, w), PlanPayload(p)) =>
      var t1 := t.(kind := Supervisor(Some(p), c, w));
      PutValid(e, t1, now);
      ActivateOutcome(Put(e, t1, now), id, now);
    case (Worker(_, tp), CallPayload(call)) =>
      var t1 := t.(kind := Worker(Some(call), tp));
      PutValid(e, t1, now);
      ActivateOutcome(Put(e, t1, now), id, now);
    case _ =>
  }

  /** After an activation attempt on a registered session that may start,
      the session is running or the limit is reached, and its record differs
      at most in its status. */
  lemma ActivateOutcome(e: Exec, id: string, now: int)
    requires Valid(e) && id in e.sessions && CanActivate(e.sessions[id])
    ensures var r := Activate(e, id, now).0;
      && id in r.sessions
      && r.sessions[id] == e.sessions[id].(status := r.sessions[id].status)
      && (id in r.active || |r.active| >= r.config.maxConcurrentSessions)
  {
  }

  /** `handleStatusUpdate`: the session's progress becomes the payload's when
      that is truthy (neither 0 nor NaN) and stays as it was otherwise; nothing
      else about the session changes. */
  lemma RouteStatusUpdate(e: Exec, m: SessionMessage, now: int)
    requires Valid(e)
    requires m.msgType == StatusUpdate && m.toSessionId in e.sessions
    ensures var r := Route(e, m, now); var id := m.toSessionId; var t := e.sessions[id];
      && id in r.sessions
      && r.sessions[id].progress == (if m.payload.ProgressPayload? && Truthy(m.payload.progress) then Some(m.payload.progress) else t.progress)
      && r.sessions[id] == t.(progress := r.sessions[id].progress)
      && r.active == e.active
      && (forall k :: k in e.sessions && k != id ==> r.sessions[k] == e.sessions[k])
  {
  }

  /** Handling a batch of messages in order keeps the invariant, the
      registry's ids and the set of message files. */
  lemma {:induction false} RouteAllValid(e: Exec, msgs: seq<SessionMessage>, now: int)
    requires Valid(e)
    ensures var r := RouteAll(e, msgs, now);
      && Valid(r)
      && r.sessions.Keys == e.sessions.Keys
      && r.disk.messages.Keys == e.disk.messages.Keys
    decreases |msgs|
  {
    if |msgs| > 0 {
      RouteValid(e, msgs[0], now);
      RouteAllValid(Route(e, msgs[0], now), msgs[1..], now);
    }
  }

  /** Handling a message never drops a session and touches no message file
      but its own, which it marks processed when the destination is
      registered. */
  lemma RouteFiles(e: Exec, m: SessionMessage, now: int)
    ensures var r := Route(e, m, now);
      && e.sessions.Keys <= r.sessions.Keys
      && r.disk.messages.Keys == e.disk.messages.Keys
      && (forall k :: k in e.disk.messages && k != m.id ==> r.disk.messages[k] == e.disk.messages[k])
      && (m.toSessionId in e.sessions && m.id in e.disk.messages ==>
            r.disk.messages[m.id].status == FlowFiles.Processed)
  {
    if m.toSessionId in e.sessions {
      var e1 := Dispatch(e, e.sessions[m.toSessionId], m, now);
      DispatchFiles(e, e.sessions[m.toSessionId], m, now);
      FlowFiles.MarkProcessedFacts(e1.disk, m.id, now);
    }
  }

  lemma DispatchFiles(e: Exec, t: Session, m: SessionMessage, now: int)
    ensures var r := Dispatch(e, t, m, now);
      r.disk.messages == e.disk.messages && e.sessions.Keys <= r.sessions.Keys
  {
    if m.msgType == TaskAssignment {
      var p := m.payload;
      if t.kind.Supervisor? && p.PlanPayload? {
        PutActivateFiles(e, t.(kind := t.kind.(workPlan := Some(p.plan))), now);
      } else if t.kind.Worker? && p.CallPayload? {
        PutActivateFiles(e, t.(kind := t.kind.(requestCall := Some(p.call))), now);
      }
    }
  }

  lemma PutActivateFiles(e: Exec, t: Session, now: int)
    ensures var r := Activate(Put(e, t, now), t.id, now).0;
      r.disk.messages == e.disk.messages && e.sessions.Keys <= r.sessions.Keys
  {
    var e1 := Put(e, t, now);
    assert e1.disk.messages == e.disk.messages && e.sessions.Keys <= e1.sessions.Keys;
    if Activate(e1, t.id, now).1 == Activated {
      var s := e1.sessions[t.id].(status := Active);
      assert Activate(e1, t.id, now).0 == Put(e1.(active := e1.active + {t.id}), s, now);
    }
  }

  /** Handling a batch of messages in order keeps a processed file
      processed. */
  lemma {:induction false} RouteAllKeepsProcessed(e: Exec, msgs: seq<SessionMessage>, now: int, k: string)
    requires k in e.disk.messages && e.disk.messages[k].status == FlowFiles.Processed
    ensures var r := RouteAll(e, msgs, now);
      k in r.disk.messages && r.disk.messages[k].status == FlowFiles.Processed
    decreases |msgs|
  {
    if |msgs| > 0 {
      RouteFiles(e, msgs[0], now);
      RouteAllKeepsProcessed(Route(e, msgs[0], now), msgs[1..], now, k);
    }
  }

  /** Handling a batch of messages in order: every message for a registered
      session ends with its file processed. */
  lemma {:induction false} RouteAllMarks(e: Exec, msgs: seq<SessionMessage>, now: int, i: nat)
    requires i < |msgs| && msgs[i].toSessionId in e.sessions && msgs[i].id in e.disk.messages
    ensures var r := RouteAll(e, msgs, now);
      msgs[i].id in r.disk.messages && r.disk.messages[msgs[i].id].status == FlowFiles.Processed
    decreases |msgs|
  {
    var m0 := msgs[0];
    RouteFiles(e, m0, now);
    var e1 := Route(e, m0, now);
    if i == 0 {
      RouteAllKeepsProcessed(e1, msgs[1..], now, m0.id);
    } else {
      assert msgs[1..][i - 1] == msgs[i];
      RouteAllMarks(e1, msgs[1..], now, i - 1);
    }
  }

  /** Handling a batch of messages in order leaves exactly as it was every
      message file that no handled message for a registered session names. */
  lemma {:induction false} RouteAllUntouched(e: Exec, msgs: seq<SessionMessage>, now: int)
    requires Valid(e)
    ensures var r := RouteAll(e, msgs, now);
      && r.disk.messages.Keys == e.disk.messages.Keys
      && (forall k :: k in e.disk.messages && (forall m :: m in msgs && m.id == k ==> m.toSessionId !in e.sessions) ==>
            r.disk.messages[k] == e.disk.messages[k])
    decreases |msgs|
  {
    RouteAllValid(e, msgs, now);
    if |msgs| > 0 {
      var m0 := msgs[0];
      RouteValid(e, m0, now);
      var e1 := Route(e, m0, now);
      RouteAllUntouched(e1, msgs[1..], now);
      var r := RouteAll(e1, msgs[1..], now);
      forall k | k in e.disk.messages && (forall m :: m in msgs && m.id == k ==> m.toSessionId !in e.sessions)
        ensures r.disk.messages[k] == e.disk.messages[k]
      {
        assert m0 in msgs;
        assert forall m :: m in msgs[1..] ==> m in msgs;
        assert e1.disk.messages[k] == e.disk.messages[k];
      }
    }
  }

  /** `processMessages` over a listing of the message directory: the invariant
      holds afterwards; processed files are untouched; a pending message whose
      destination is not registered stays pending and untouched; and, when the
      listing names exactly the message files, every pending message whose
      destination is registered is processed. */
  lemma ProcessMessagesFacts(e: Exec, listing: seq<string>, now: int)
    requires Valid(e)
    ensures var r := ProcessMessages(e, listing, now);
      && Valid(r)
      && r.sessions.Keys == e.sessions.Keys
      && r.disk.messages.Keys == e.disk.messages.Keys
      && (forall k :: k in e.disk.messages && e.disk.messages[k].status == FlowFiles.Processed ==>
            r.disk.messages[k] == e.disk.messages[k])
      && (forall k :: k in e.disk.messages && e.disk.messages[k].message.toSessionId !in e.sessions ==>
            r.disk.messages[k] == e.disk.messages[k])
      && (FlowFiles.ListsMessages(e.disk, listing) ==>
            forall k :: k in e.disk.messages && e.disk.messages[k].status == FlowFiles.Pending &&
                        e.disk.messages[k].message.toSessionId in e.sessions ==>
              r.disk.messages[k].status == FlowFiles.Processed)
  {
    var msgs := FlowFiles.ReadPending(e.disk, listing);
    RouteAllValid(e, msgs, now);
    RouteAllUntouched(e, msgs, now);
    if FlowFiles.ListsMessages(e.disk, listing) {
      forall k | k in e.disk.messages && e.disk.messages[k].status == FlowFiles.Pending
                 && e.disk.messages[k].message.toSessionId in e.sessions
        ensures ProcessMessages(e, listing, now).disk.messages[k].status == FlowFiles.Processed
      {
        FlowFiles.ReadPendingComplete(e.disk, listing, k);
        var i :| 0 <= i < |msgs| && msgs[i] == e.disk.messages[k].message;
        RouteAllMarks(e, msgs, now, i);
      }
    }
  }

  /** The completion of a manager whose call succeeded, for any descriptors
      under fresh identifiers: the manager records the reply, is completed and
      leaves the running set, and exactly one assignment per child is queued.
      Its child list is left as it was. */
  lemma ManagerSucceeds(e: Exec, id: string, ds: seq<Parsers.SupervisorDescriptor>, reply: FlowMessage, ids: nat -> string, now: int)
    requires Valid(e) && id in e.sessions
    requires FreshIds(e, Drawn(ids, 1, 2, |ds|))
    ensures var s := e.sessions[id]; var s1 := s.(messages := s.messages + [reply]);
      var r := Complete(SpawnSupervisors(e, id, ds, ids, 1, now), s1, now);
      && id in r.sessions
      && r.sessions[id] == s1.(status := Completed)
      && id !in r.active
      && r.queue == e.queue + SupervisorAssignments(id, ds, ids, 1, now)
  {
    var s := e.sessions[id];
    SpawnSupervisorsFresh(e, id, ds, ids, 1, now);
    CompleteFacts(SpawnSupervisors(e, id, ds, ids, 1, now), s.(messages := s.messages + [reply]), now);
  }

  /** The supervisors created by a successful call are registered as built; the
      recheck after the completion starts each at once unless the limit is
      reached. */
  lemma ManagerChildren(e: Exec, id: string, ds: seq<Parsers.SupervisorDescriptor>, reply: FlowMessage, ids: nat -> string, now: int)
    requires Valid(e) && id in e.sessions
    requires FreshIds(e, Drawn(ids, 1, 2, |ds|))
    ensures var s := e.sessions[id]; var s1 := s.(messages := s.messages + [reply]);
      var r := Complete(SpawnSupervisors(e, id, ds, ids, 1, now), s1, now);
      var drawn := Drawn(ids, 1, 2, |ds|);
      forall j :: 0 <= j < |ds| ==>
        && drawn[j] in r.sessions
        && r.sessions[drawn[j]] == NewSupervisor(drawn[j], id, ds[j].component, now).(status := if drawn[j] in r.active then Active else Idle)
        && (drawn[j] in r.active || |r.active| >= e.config.maxConcurrentSessions)
  {
    var s := e.sessions[id];
    SpawnSupervisorsFresh(e, id, ds, ids, 1, now);
    CompleteStartsIdle(SpawnSupervisors(e, id, ds, ids, 1, now), s.(messages := s.messages + [reply]), now, Drawn(ids, 1, 2, |ds|));
  }

  /** A manager whose call succeeded records the reply, creates one supervisor
      per descriptor of the parsed reply under fresh identifiers, sends each its
      work plan, and is completed. Each supervisor is registered as built,
      except that the recheck after completion starts it at once unless the
      limit is reached. */
  lemma ExecuteManagerSpawns(e: Exec, id: string, text: string, ids: nat -> string, now: int)
    requires Valid(e) && id in e.sessions && e.sessions[id].kind.Manager?
    requires FreshIds(e, Drawn(ids, 1, 2, |Parsers.ParseManagerResponse(text)|))
    ensures var s := e.sessions[id]; var r := Execute(e, id, Success(text), ids, now);
      var ds := Parsers.ParseManagerResponse(text); var drawn := Drawn(ids, 1, 2, |ds|);
      && id in r.sessions
      && r.sessions[id] == s.(status := Completed, messages := s.messages + [FlowMessage(ids(0), now, Assistant, text)])
      && id !in r.active
      && r.queue == e.queue + SupervisorAssignments(id, ds, ids, 1, now)
      && (forall j :: 0 <= j < |ds| ==>
            && drawn[j] in r.sessions
            && r.sessions[drawn[j]] == NewSupervisor(drawn[j], id, ds[j].component, now).(status := if drawn[j] in r.active then Active else Idle)
            && (drawn[j] in r.active || |r.active| >= e.config.maxConcurrentSessions))
  {
    ExecuteSuccessUnfolds(e, id, text, ids, now);
    var reply := FlowMessage(ids(0), now, Assistant, text);
    ManagerSucceeds(e, id, Parsers.ParseManagerResponse(text), reply, ids, now);
    ManagerChildren(e, id, Parsers.ParseManagerResponse(text), reply, ids, now);
  }

  /** The completion of a supervisor whose call succeeded, for any descriptors
      under fresh identifiers: the supervisor records the reply, is completed and
      leaves the running set, and exactly one assignment per child is queued.
      Its child list is left as it was. */
  lemma SupervisorSucceeds(e: Exec, id: string, ds: seq<Parsers.WorkerDescriptor>, reply: FlowMessage, ids: nat -> string, now: int)
    requires Valid(e) && id in e.sessions
    requires FreshIds(e, Drawn(ids, 1, 3, |ds|))
    ensures var s := e.sessions[id]; var s1 := s.(messages := s.messages + [reply]);
      var r := Complete(SpawnWorkers(e, id, ds, ids, 1, now), s1, now);
      && id in r.sessions
      && r.sessions[id] == s1.(status := Completed)
      && id !in r.active
      && r.queue == e.queue + WorkerAssignments(id, ds, ids, 1, now)
  {
    var s := e.sessions[id];
    SpawnWorkersFresh(e, id, ds, ids, 1, now);
    CompleteFacts(SpawnWorkers(e, id, ds, ids, 1, now), s.(messages := s.messages + [reply]), now);
  }

  /** The workers created by a successful call are registered as built; the
      recheck after the completion starts each at once unless the limit is
      reached. */
  lemma SupervisorChildren(e: Exec, id: string, ds: seq<Parsers.WorkerDescriptor>, reply: FlowMessage, ids: nat -> string, now: int)
    requires Valid(e) && id in e.sessions
    requires FreshIds(e, Drawn(ids, 1, 3, |ds|))
    ensures var s := e.sessions[id]; var s1 := s.(messages := s.messages + [reply]);
      var r := Complete(SpawnWorkers(e, id, ds, ids, 1, now), s1, now);
      var drawn := Drawn(ids, 1, 3, |ds|); var tasks := Drawn(ids, 2, 3, |ds|);
      forall j :: 0 <= j < |ds| ==>
        && drawn[j] in r.sessions
        && r.sessions[drawn[j]] == NewWorker(drawn[j], tasks[j], id, ds[j], now).(status := if drawn[j] in r.active then Active else Idle)
        && (drawn[j] in r.active || |r.active| >= e.config.maxConcurrentSessions)
  {
    var s1 := e.sessions[id].(messages := e.sessions[id].messages + [reply]);
    var e1 := SpawnWorkers(e, id, ds, ids, 1, now);
    SpawnedWorkersIdle(e, id, ds, ids, now);
    CompleteStartsIdle(e1, s1, now, Drawn(ids, 1, 3, |ds|));
  }

  /** The workers just spawned are built as described, idle, not running,
      and ready to start, in a state that keeps the invariant. */
  lemma SpawnedWorkersIdle(e: Exec, id: string, ds: seq<Parsers.WorkerDescriptor>, ids: nat -> string, now: int)
    requires Valid(e) && id in e.sessions
    requires FreshIds(e, Drawn(ids, 1, 3, |ds|))
    ensures var e1 := SpawnWorkers(e, id, ds, ids, 1, now); var drawn := Drawn(ids, 1, 3, |ds|);
      var tasks := Drawn(ids, 2, 3, |ds|);
      && Valid(e1)
      && (forall j :: 0 <= j < |ds| ==> drawn[j] in e1.sessions && e1.sessions[drawn[j]] == NewWorker(drawn[j], tasks[j], id, ds[j], now))
      && forall j :: 0 <= j < |drawn| ==>
        && drawn[j] in e1.sessions && drawn[j] !in e1.active && drawn[j] != id
        && e1.sessions[drawn[j]].status == Idle && CanActivate(e1.sessions[drawn[j]])
  {
    var e1 := SpawnWorkers(e, id, ds, ids, 1, now);
    var drawn := Drawn(ids, 1, 3, |ds|);
    var tasks := Drawn(ids, 2, 3, |ds|);
    SpawnWorkersFresh(e, id, ds, ids, 1, now);
    forall j | 0 <= j < |drawn|
      ensures && drawn[j] in e1.sessions && drawn[j] !in e1.active && drawn[j] != id
              && e1.sessions[drawn[j]].status == Idle && CanActivate(e1.sessions[drawn[j]])
    {
      assert e1.sessions[drawn[j]] == NewWorker(drawn[j], tasks[j], id, ds[j], now);
    }
  }

  /** A supervisor whose call succeeded records the reply, creates one worker
      per descriptor of the parsed reply under fresh identifiers, sends each its
      request call, and is completed. Each worker is registered as built, and
      the recheck starts it at once unless the limit is reached. */
  lemma ExecuteSupervisorSpawns(e: Exec, id: string, text: string, ids: nat -> string, now: int)
    requires Valid(e) && id in e.sessions && e.sessions[id].kind.Supervisor?
    requires FreshIds(e, Drawn(ids, 1, 3, |Parsers.ParseSupervisorResponse(text)|))
    ensures var s := e.sessions[id]; var r := Execute(e, id, Success(text), ids, now);
      var ds := Parsers.ParseSupervisorResponse(text); var drawn := Drawn(ids, 1, 3, |ds|); var tasks := Drawn(ids, 2, 3, |ds|);
      && id in r.sessions
      && r.sessions[id] == s.(status := Completed, messages := s.messages + [FlowMessage(ids(0), now, Assistant, text)])
      && id !in r.active
      && r.queue == e.queue + WorkerAssignments(id, ds, ids, 1, now)
      && (forall j :: 0 <= j < |ds| ==>
            && drawn[j] in r.sessions
            && r.sessions[drawn[j]] == NewWorker(drawn[j], tasks[j], id, ds[j], now).(status := if drawn[j] in r.active then Active else Idle)
            && (drawn[j] in r.active || |r.active| >= e.config.maxConcurrentSessions))
  {
    ExecuteSuccessUnfolds(e, id, text, ids, now);
    var reply := FlowMessage(ids(0), now, Assistant, text);
    SupervisorSucceeds(e, id, Parsers.ParseSupervisorResponse(text), reply, ids, now);
    SupervisorChildren(e, id, Parsers.ParseSupervisorResponse(text), reply, ids, now);
  }
}
