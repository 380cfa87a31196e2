/** The `.flow` directory of a project (`flowFileManager.ts`), with the
    directory tree replaced by two maps: session files and message files, each
    keyed by the id that names the file `<id>.json`. Directory listings, which
    come from the operating system, are parameters; a listed file that cannot
    be read ends the scan, as the source's `catch` around its loop does. */
module FlowFiles {
  import opened Wrappers
  import opened FlowTypes
  import Text

  datatype MessageStatus = Pending | Processed

  /** A message file: the message plus its processing status, creation time and
      (once processed) processing time. */
  datatype MessageRecord = MessageRecord(
    message: SessionMessage,
    status: MessageStatus,
    created: int,
    processedAt: Option<int>)

  /** A session file: the session plus the time it was written. */
  datatype SessionRecord = SessionRecord(session: Session, lastUpdated: int)

  datatype FlowDir = FlowDir(sessions: map<string, SessionRecord>, messages: map<string, MessageRecord>)

  const EmptyDir := FlowDir(map[], map[])

  const JsonSuffix := ".json"

  const ExportVersion := "1.0.0"

  const MillisPerDay := 86_400_000

  /** Every file holds the record its name announces. */
  ghost predicate WellKeyed(d: FlowDir)
  {
    && (forall k :: k in d.sessions ==> d.sessions[k].session.id == k)
    && (forall k :: k in d.messages ==> d.messages[k].message.id == k)
  }

  /** The id a listed file name stands for, when it names a `.json` file. */
  function StemOf(name: string): (r: Option<string>)
    ensures r.Some? <==> Text.EndsWith(name, JsonSuffix)
    ensures r.Some? ==> r.value + JsonSuffix == name
  {
    if Text.EndsWith(name, JsonSuffix) then Some(name[..|name| - |JsonSuffix|]) else None
  }

  lemma StemOfFileName(id: string)
    ensures StemOf(id + JsonSuffix) == Some(id)
  {
    var name := id + JsonSuffix;
    assert name[|name| - |JsonSuffix|..] == JsonSuffix;
    assert name[..|name| - |JsonSuffix|] == id;
  }

  // ---------------------------------------------------------------- sessions

  /** `writeSessionFile`: the session file now holds the session stamped with
      the write time; no other file changes. */
  function WriteSessionFile(d: FlowDir, s: Session, now: int): (r: FlowDir)
  {
    d.(sessions := d.sessions[s.id := SessionRecord(s, now)])
  }

  /** The written file holds the stamped session, the set of session files
      grows by at most that id, every other file is untouched, and a directory
      whose files match their names keeps doing so. */
  lemma WriteSessionFileFacts(d: FlowDir, s: Session, now: int)
    ensures var r := WriteSessionFile(d, s, now);
      && s.id in r.sessions && r.sessions[s.id] == SessionRecord(s, now)
      && r.sessions.Keys == d.sessions.Keys + {s.id}
      && (forall k :: k in d.sessions && k != s.id ==> r.sessions[k] == d.sessions[k])
      && r.messages == d.messages
      && (WellKeyed(d) ==> WellKeyed(r))
  {
  }

  /** A batch of `writeSessionFile` calls on distinct ids, stamped with one
      time: the order of the writes does not matter. */
  function WriteSessionFiles(d: FlowDir, batch: map<string, Session>, now: int): (r: FlowDir)
    ensures r.sessions.Keys == d.sessions.Keys + batch.Keys
    ensures forall k :: k in batch ==> r.sessions[k] == SessionRecord(batch[k], now)
    ensures forall k :: k in d.sessions && k !in batch ==> r.sessions[k] == d.sessions[k]
    ensures r.messages == d.messages
    ensures WellKeyed(d) && (forall k :: k in batch ==> batch[k].id == k) ==> WellKeyed(r)
  {
    d.(sessions := d.sessions + map k | k in batch :: SessionRecord(batch[k], now))
  }

  /** `readSessionFile`: `None` (the source's `null`) when no file exists. */
  function ReadSessionFile(d: FlowDir, id: string): (r: Option<SessionRecord>)
    ensures r.None? <==> id !in d.sessions
    ensures r.Some? ==> r.value == d.sessions[id]
  {
    if id in d.sessions then Some(d.sessions[id]) else None
  }

  /** Reading back a written session gives that session and its write time;
      every other id reads as before. */
  lemma WriteThenReadSession(d: FlowDir, s: Session, now: int, id: string)
    ensures ReadSessionFile(WriteSessionFile(d, s, now), id)
         == if id == s.id then Some(SessionRecord(s, now)) else ReadSessionFile(d, id)
  {
  }

  // ---------------------------------------------------------------- messages

  /** `writeMessage`: the message file holds the message as `Pending`,
      replacing any file of the same id. */
  function WriteMessage(d: FlowDir, m: SessionMessage, now: int): (r: FlowDir)
  {
    d.(messages := d.messages[m.id := MessageRecord(m, Pending, now, None)])
  }

  /** The written message file holds the message as `Pending`; every other
      file is untouched. */
  lemma WriteMessageFacts(d: FlowDir, m: SessionMessage, now: int)
    ensures var r := WriteMessage(d, m, now);
      && m.id in r.messages && r.messages[m.id] == MessageRecord(m, Pending, now, None)
      && r.messages.Keys == d.messages.Keys + {m.id}
      && (forall k :: k in d.messages && k != m.id ==> r.messages[k] == d.messages[k])
      && r.sessions == d.sessions
      && (WellKeyed(d) ==> WellKeyed(r))
  {
  }

  /** `readPendingMessages`: the messages of the listed `.json` files whose
      status is `Pending`, in listing order; a listed file that does not exist
      stops the scan and the messages gathered so far are returned. */
  function ReadPending(d: FlowDir, listing: seq<string>): (r: seq<SessionMessage>)
    ensures |r| <= |listing|
    ensures WellKeyed(d) ==> forall m :: m in r ==>
      m.id in d.messages && d.messages[m.id].status == Pending && d.messages[m.id].message == m
  {
    if |listing| == 0 then []
    else
      match StemOf(listing[0])
      case None => ReadPending(d, listing[1..])
      case Some(id) =>
        if id !in d.messages then []
        else
          var here := if d.messages[id].status == Pending then [d.messages[id].message] else [];
          here + ReadPending(d, listing[1..])
  }

  /** The listing names exactly the message files on disk. */
  ghost predicate ListsMessages(d: FlowDir, listing: seq<string>)
  {
    && (forall k :: k in d.messages ==> k + JsonSuffix in listing)
    && (forall i :: 0 <= i < |listing| ==> StemOf(listing[i]).Some? && StemOf(listing[i]).value in d.messages)
  }

  /** With a complete listing, the pending read returns exactly the pending
      messages (and, by `ReadPending`'s contract, nothing processed). */
  lemma {:induction false} ReadPendingComplete(d: FlowDir, listing: seq<string>, k: string)
    requires ListsMessages(d, listing)
    requires k in d.messages && d.messages[k].status == Pending
    ensures d.messages[k].message in ReadPending(d, listing)
  {
    StemOfFileName(k);
    var i :| 0 <= i < |listing| && listing[i] == k + JsonSuffix;
    ReadPendingFinds(d, listing, i);
  }

  lemma {:induction false} ReadPendingFinds(d: FlowDir, listing: seq<string>, i: nat)
    requires i < |listing|
    requires forall j :: 0 <= j < |listing| ==> StemOf(listing[j]).Some? && StemOf(listing[j]).value in d.messages
    requires d.messages[StemOf(listing[i]).value].status == Pending
    ensures d.messages[StemOf(listing[i]).value].message in ReadPending(d, listing)
    decreases i
  {
    var rest := listing[1..];
    assert forall j :: 0 <= j < |rest| ==> rest[j] == listing[j + 1];
    if i > 0 {
      ReadPendingFinds(d, rest, i - 1);
    }
  }

  /** `markMessageProcessed`: an existing file becomes `Processed` (stamped with
      the time); an absent id changes nothing. */
  function MarkProcessed(d: FlowDir, id: string, now: int): (r: FlowDir)
  {
    if id in d.messages then
      d.(messages := d.messages[id := d.messages[id].(status := Processed, processedAt := Some(now))])
    else d
  }

  /** Marking changes at most the named file, and only its status and
      processing time; an absent id changes nothing. */
  lemma MarkProcessedFacts(d: FlowDir, id: string, now: int)
    ensures var r := MarkProcessed(d, id, now);
      && r.messages.Keys == d.messages.Keys
      && (id in d.messages ==> r.messages[id] == d.messages[id].(status := Processed, processedAt := Some(now)))
      && (id !in d.messages ==> r == d)
      && (forall k :: k in d.messages && k != id ==> r.messages[k] == d.messages[k])
      && r.sessions == d.sessions
      && (WellKeyed(d) ==> WellKeyed(r))
  {
  }

  /** Marking twice at the same time is marking once, and a processed message
      stays processed whenever it is marked again. */
  lemma MarkProcessedIdempotent(d: FlowDir, id: string, now: int, later: int)
    ensures MarkProcessed(MarkProcessed(d, id, now), id, now) == MarkProcessed(d, id, now)
    ensures id in d.messages ==> MarkProcessed(MarkProcessed(d, id, now), id, later).messages[id].status == Processed
  {
  }

  // ---------------------------------------------------------------- cleanup

  /** The number of days `cleanupOldMessages` keeps when the caller names none. */
  const DefaultDaysToKeep: nat := 7

  /** `cleanupOldMessages` cutoff: `daysToKeep` whole days before now. */
  function Cutoff(now: int, daysToKeep: nat): (r: int)
    ensures r <= now
    ensures daysToKeep > 0 ==> r < now
  {
    now - daysToKeep * MillisPerDay
  }

  /** The record `cleanupOldMessages` deletes. */
  predicate Expired(rec: MessageRecord, cutoff: int)
  {
    rec.status == Processed && rec.created < cutoff
  }

  /** `cleanupOldMessages`: walks the listing and deletes each processed
      message file created before the cutoff; a listed file that cannot be
      read stops the walk. */
  function CleanupOldMessages(d: FlowDir, listing: seq<string>, cutoff: int): (r: FlowDir)
    ensures r.sessions == d.sessions
    ensures r.messages.Keys <= d.messages.Keys
    ensures forall k :: k in r.messages ==> r.messages[k] == d.messages[k]
    ensures forall k :: k in d.messages && k !in r.messages ==> Expired(d.messages[k], cutoff)
    ensures WellKeyed(d) ==> WellKeyed(r)
    decreases |listing|
  {
    if |listing| == 0 then d
    else
      match StemOf(listing[0])
      case None => CleanupOldMessages(d, listing[1..], cutoff)
      case Some(id) =>
        if id !in d.messages then d
        else if Expired(d.messages[id], cutoff) then
          CleanupOldMessages(d.(messages := d.messages - {id}), listing[1..], cutoff)
        else CleanupOldMessages(d, listing[1..], cutoff)
  }

  /** With a listing that names each message file once, cleanup deletes
      exactly the expired records. */
  lemma {:induction false} CleanupRemovesExactlyExpired(d: FlowDir, listing: seq<string>, cutoff: int, k: string)
    requires forall i :: 0 <= i < |listing| ==> StemOf(listing[i]).Some? && StemOf(listing[i]).value in d.messages
    requires forall i, j :: 0 <= i < j < |listing| ==> listing[i] != listing[j]
    requires k + JsonSuffix in listing
    requires k in d.messages
    ensures k in CleanupOldMessages(d, listing, cutoff).messages <==> !Expired(d.messages[k], cutoff)
    decreases |listing|
  {
    StemOfFileName(k);
    var rest := listing[1..];
    var id := StemOf(listing[0]).value;
    var d' := if Expired(d.messages[id], cutoff) then d.(messages := d.messages - {id}) else d;
    if listing[0] == k + JsonSuffix {
      assert id == k;
      assert k + JsonSuffix !in rest;
      if !Expired(d.messages[k], cutoff) {
        CleanupKeeps(d', rest, cutoff, k);
      }
    } else {
      assert k + JsonSuffix in rest;
      assert id != k by {
        assert listing[0] == id + JsonSuffix;
      }
      forall i | 0 <= i < |rest|
        ensures StemOf(rest[i]).Some? && StemOf(rest[i]).value in d'.messages
      {
        assert rest[i] == listing[i + 1];
        if StemOf(rest[i]).value == id {
          assert false;
        }
      }
      CleanupRemovesExactlyExpired(d', rest, cutoff, k);
    }
  }

  lemma {:induction false} CleanupKeeps(d: FlowDir, listing: seq<string>, cutoff: int, k: string)
    requires forall i :: 0 <= i < |listing| ==> StemOf(listing[i]).Some?
    requires k + JsonSuffix !in listing
    requires k in d.messages
    ensures k in CleanupOldMessages(d, listing, cutoff).messages
    decreases |listing|
  {
    if |listing| > 0 {
      var id := StemOf(listing[0]).value;
      assert listing[0] == id + JsonSuffix;
      assert id != k;
      assert forall i :: 0 <= i < |listing[1..]| ==> listing[1..][i] == listing[i + 1];
      if id in d.messages && Expired(d.messages[id], cutoff) {
        CleanupKeeps(d.(messages := d.messages - {id}), listing[1..], cutoff, k);
      } else if id in d.messages {
        CleanupKeeps(d, listing[1..], cutoff, k);
      }
    }
  }

  // ---------------------------------------------------------------- hierarchy

  /** `getAllSessions`: the listed session files in listing order; a listed
      file that does not exist stops the scan. */
  function ReadAllSessions(d: FlowDir, listing: seq<string>): (r: seq<SessionRecord>)
    ensures |r| <= |listing|
    ensures forall i :: 0 <= i < |r| ==> r[i] in d.sessions.Values
  {
    if |listing| == 0 then []
    else
      match StemOf(listing[0])
      case None => ReadAllSessions(d, listing[1..])
      case Some(id) =>
        if id !in d.sessions then []
        else [d.sessions[id]] + ReadAllSessions(d, listing[1..])
  }

  /** `new Map(all.map(s => [s.id, s]))`: a later record of the same id wins. */
  function ById(records: seq<SessionRecord>): (m: map<string, SessionRecord>)
    ensures forall i :: 0 <= i < |records| ==> records[i].session.id in m
    ensures forall k :: k in m ==> m[k].session.id == k && m[k] in records
    decreases |records|
  {
    if |records| == 0 then map[]
    else
      var last := records[|records| - 1];
      ById(records[..|records| - 1])[last.session.id := last]
  }

  /** The listing names exactly the session files on disk. */
  ghost predicate ListsSessions(d: FlowDir, listing: seq<string>)
  {
    && (forall k :: k in d.sessions ==> k + JsonSuffix in listing)
    && (forall i :: 0 <= i < |listing| ==> StemOf(listing[i]).Some? && StemOf(listing[i]).value in d.sessions)
  }

  /** When every listed name is a session file on disk, the scan never stops
      early: it returns one record per listed name, each the file of the id
      the name stands for. */
  lemma {:induction false} ReadAllSessionsListed(d: FlowDir, listing: seq<string>)
    requires forall i :: 0 <= i < |listing| ==> StemOf(listing[i]).Some? && StemOf(listing[i]).value in d.sessions
    ensures var r := ReadAllSessions(d, listing);
      && |r| == |listing|
      && forall i :: 0 <= i < |listing| ==> r[i] == d.sessions[StemOf(listing[i]).value]
    decreases |listing|
  {
    if |listing| > 0 {
      var rest := listing[1..];
      assert forall i :: 0 <= i < |rest| ==> rest[i] == listing[i + 1];
      ReadAllSessionsListed(d, rest);
    }
  }

  /** With a complete listing every stored session file is read. */
  lemma ReadAllSessionsComplete(d: FlowDir, listing: seq<string>, k: string)
    requires ListsSessions(d, listing)
    requires k in d.sessions
    ensures d.sessions[k] in ReadAllSessions(d, listing)
  {
    StemOfFileName(k);
    var i :| 0 <= i < |listing| && listing[i] == k + JsonSuffix;
    ReadAllSessionsListed(d, listing);
    assert ReadAllSessions(d, listing)[i] == d.sessions[k];
  }

  /** The map keeps, for each id, the last record of that id. */
  lemma {:induction false} ByIdLastWins(records: seq<SessionRecord>, i: nat)
    requires i < |records|
    requires forall j :: i < j < |records| ==> records[j].session.id != records[i].session.id
    ensures ById(records)[records[i].session.id] == records[i]
    decreases |records|
  {
    var n := |records| - 1;
    ByIdSnoc(records);
    if i < n {
      LaterIdsOfInit(records, i);
      ByIdLastWins(records[..n], i);
    }
  }

  /** The map of a non-empty run is that of all but its last record, with the
      last record put in. */
  lemma ByIdSnoc(records: seq<SessionRecord>)
    requires |records| > 0
    ensures var n := |records| - 1;
      ById(records) == ById(records[..n])[records[n].session.id := records[n]]
  {
  }

  /** Dropping the last record keeps record `i` and its unique id among the
      later ones. */
  lemma LaterIdsOfInit(records: seq<SessionRecord>, i: nat)
    requires i < |records| - 1
    requires forall j :: i < j < |records| ==> records[j].session.id != records[i].session.id
    ensures var init := records[..|records| - 1];
      && init[i] == records[i]
      && records[|records| - 1].session.id != records[i].session.id
      && forall j :: i < j < |init| ==> init[j].session.id != init[i].session.id
  {
  }

  /** Every record the map holds for an id is that id's session file, when
      the files hold the sessions their names announce. */
  lemma ByIdRecordsAreFiles(d: FlowDir, listing: seq<string>)
    requires WellKeyed(d)
    requires forall i :: 0 <= i < |listing| ==> StemOf(listing[i]).Some? && StemOf(listing[i]).value in d.sessions
    ensures var m := ById(ReadAllSessions(d, listing));
      forall k :: k in m ==> k in d.sessions && m[k] == d.sessions[k]
  {
    var r := ReadAllSessions(d, listing);
    var m := ById(r);
    ReadAllSessionsListed(d, listing);
    forall k | k in m ensures k in d.sessions && m[k] == d.sessions[k] {
      var i :| 0 <= i < |r| && r[i] == m[k];
      assert r[i] == d.sessions[StemOf(listing[i]).value];
    }
  }

  /** Read from a complete listing of a directory whose files hold the
      sessions their names announce, the map is exactly the session files. */
  lemma ByIdOfDirectory(d: FlowDir, listing: seq<string>)
    requires WellKeyed(d) && ListsSessions(d, listing)
    ensures var m := ById(ReadAllSessions(d, listing));
      && m.Keys == d.sessions.Keys
      && forall k :: k in m ==> m[k] == d.sessions[k]
  {
    ByIdRecordsAreFiles(d, listing);
    forall k | k in d.sessions ensures k in ById(ReadAllSessions(d, listing)) {
      ReadAllSessionsComplete(d, listing, k);
    }
  }

  /** A session with the sub-trees of its children. */
  datatype Hierarchy = Node(record: SessionRecord, children: seq<Hierarchy>)

  /** The ids among `ids` that have a record, in order. */
  function Present(m: map<string, SessionRecord>, ids: seq<string>): (r: seq<string>)
    ensures |r| <= |ids|
    ensures forall x :: x in r <==> x in ids && x in m
  {
    if |ids| == 0 then []
    else (if ids[0] in m then [ids[0]] else []) + Present(m, ids[1..])
  }

  /** `buildHierarchy` with a depth bound: the source recurses without one and
      relies on the child lists forming a tree. */
  function Build(m: map<string, SessionRecord>, id: string, fuel: nat): (r: Option<Hierarchy>)
    ensures r.None? <==> id !in m
    ensures r.Some? ==> r.value.record == m[id]
    decreases fuel, 0
  {
    if id !in m then None
    else if fuel == 0 then Some(Node(m[id], []))
    else Some(Node(m[id], BuildChildren(m, m[id].session.childIds, fuel - 1)))
  }

  /** `childIds.map(buildHierarchy).filter(Boolean)`: one sub-tree per child id
      that has a record, in child-list order. */
  function BuildChildren(m: map<string, SessionRecord>, ids: seq<string>, fuel: nat): (r: seq<Hierarchy>)
    decreases fuel, 1, |ids|
  {
    if |ids| == 0 then []
    else
      var rest := BuildChildren(m, ids[1..], fuel);
      if ids[0] in m then [Build(m, ids[0], fuel).value] + rest else rest
  }

  /** The sub-trees are those of the children that have a record, one each
      and in child-list order. */
  lemma {:induction false} BuildChildrenRecords(m: map<string, SessionRecord>, ids: seq<string>, fuel: nat)
    ensures var r := BuildChildren(m, ids, fuel);
      && |r| == |Present(m, ids)|
      && forall i :: 0 <= i < |r| ==> r[i].record == m[Present(m, ids)[i]]
    decreases |ids|
  {
    if |ids| > 0 {
      BuildChildrenRecords(m, ids[1..], fuel);
      var r := BuildChildren(m, ids, fuel);
      var rest := BuildChildren(m, ids[1..], fuel);
      if ids[0] in m {
        var p := Present(m, ids[1..]);
        assert Present(m, ids) == [ids[0]] + p;
        assert r == [Build(m, ids[0], fuel).value] + rest;
        forall i | 1 <= i < |r| ensures r[i].record == m[Present(m, ids)[i]] {
          assert r[i] == rest[i - 1] && Present(m, ids)[i] == p[i - 1];
        }
      } else {
        assert Present(m, ids) == Present(m, ids[1..]);
      }
    }
  }

  /** `getSessionHierarchy`: the tree under `root` from the listed session
      files, or `None` (the source's `null`) for an unknown root. */
  function SessionHierarchy(d: FlowDir, listing: seq<string>, root: string): (r: Option<Hierarchy>)
    ensures var m := ById(ReadAllSessions(d, listing));
      && (r.None? <==> root !in m)
      && (r.Some? ==> r.value.record == m[root])
  {
    var m := ById(ReadAllSessions(d, listing));
    Build(m, root, |m|)
  }

  // ---------------------------------------------------------------- export / import

  datatype ExportData = ExportData(session: Option<Hierarchy>, exportDate: int, version: string)

  const SessionNotFound := "Session not found"
  const InvalidImportFormat := "Invalid import file format"

  /** `exportSessionData`: fails with "Session not found" when no session file
      exists; otherwise the hierarchy under the session, dated and versioned. */
  function ExportSessionData(d: FlowDir, listing: seq<string>, id: string, exportDate: int): (r: Result<ExportData, string>)
    ensures r.Failure? <==> id !in d.sessions
    ensures r.Failure? ==> r.error == SessionNotFound
    ensures r.Success? ==> r.value.session == SessionHierarchy(d, listing, id) && r.value.version == ExportVersion
  {
    if ReadSessionFile(d, id).None? then Failure(SessionNotFound)
    else Success(ExportData(SessionHierarchy(d, listing, id), exportDate, ExportVersion))
  }

  /** The ids of every session in a tree. */
  function TreeIds(t: Hierarchy): set<string>
  {
    {t.record.session.id} + ForestIds(t.children)
  }

  function ForestIds(ts: seq<Hierarchy>): set<string>
  {
    if |ts| == 0 then {} else TreeIds(ts[0]) + ForestIds(ts[1..])
  }

  /** Every session in a tree. */
  function TreeSessions(t: Hierarchy): set<Session>
  {
    {t.record.session} + ForestSessions(t.children)
  }

  function ForestSessions(ts: seq<Hierarchy>): set<Session>
  {
    if |ts| == 0 then {} else TreeSessions(ts[0]) + ForestSessions(ts[1..])
  }

  /** The recursive `importSession`: writes the node's session, then each
      child's sub-tree in order. */
  function ImportTree(d: FlowDir, t: Hierarchy, now: int): (r: FlowDir)
    ensures r.sessions.Keys == d.sessions.Keys + TreeIds(t)
    ensures forall k :: k in TreeIds(t) ==>
      && r.sessions[k].lastUpdated == now
      && r.sessions[k].session.id == k
      && r.sessions[k].session in TreeSessions(t)
    ensures forall k :: k in d.sessions && k !in TreeIds(t) ==> r.sessions[k] == d.sessions[k]
    ensures r.messages == d.messages
    ensures WellKeyed(d) ==> WellKeyed(r)
    decreases t
  {
    WriteSessionFileFacts(d, t.record.session, now);
    ImportForest(WriteSessionFile(d, t.record.session, now), t.children, now)
  }

  function ImportForest(d: FlowDir, ts: seq<Hierarchy>, now: int): (r: FlowDir)
    ensures r.sessions.Keys == d.sessions.Keys + ForestIds(ts)
    ensures forall k :: k in ForestIds(ts) ==>
      && r.sessions[k].lastUpdated == now
      && r.sessions[k].session.id == k
      && r.sessions[k].session in ForestSessions(ts)
    ensures forall k :: k in d.sessions && k !in ForestIds(ts) ==> r.sessions[k] == d.sessions[k]
    ensures r.messages == d.messages
    ensures WellKeyed(d) ==> WellKeyed(r)
    decreases ts
  {
    if |ts| == 0 then d else ImportForest(ImportTree(d, ts[0], now), ts[1..], now)
  }

  /** `importSessionData`: fails with "Invalid import file format" when the
      file has no `session`; otherwise writes every session of the tree,
      stamped with the import time, and returns the root session. */
  function ImportSessionData(d: FlowDir, data: ExportData, now: int): (r: Result<(FlowDir, Session), string>)
    ensures r.Failure? <==> data.session.None?
    ensures r.Failure? ==> r.error == InvalidImportFormat
    ensures r.Success? ==>
      var t := data.session.value;
      && r.value.1 == t.record.session
      && r.value.0.sessions.Keys == d.sessions.Keys + TreeIds(t)
      && (forall k :: k in TreeIds(t) ==>
            && r.value.0.sessions[k].lastUpdated == now
            && r.value.0.sessions[k].session.id == k
            && r.value.0.sessions[k].session in TreeSessions(t))
      && (forall k :: k in d.sessions && k !in TreeIds(t) ==> r.value.0.sessions[k] == d.sessions[k])
      && r.value.0.messages == d.messages
  {
    match data.session
    case None => Failure(InvalidImportFormat)
    case Some(t) => Success((ImportTree(d, t, now), t.record.session))
  }

  /** A map whose records are stored under their own ids. */
  ghost predicate KeyedMap(m: map<string, SessionRecord>)
  {
    forall k :: k in m ==> m[k].session.id == k
  }

  /** Every session of a tree is the session the map holds for its id. */
  ghost predicate SessionsFrom(sessions: set<Session>, m: map<string, SessionRecord>)
  {
    forall s :: s in sessions ==> s.id in m && m[s.id].session == s
  }

  /** Sessions drawn from a map are drawn from any map that agrees with it
      on its ids. */
  lemma SessionsFromAgreeing(sessions: set<Session>, m: map<string, SessionRecord>, m2: map<string, SessionRecord>)
    requires SessionsFrom(sessions, m)
    requires forall k :: k in m ==> k in m2 && m2[k] == m[k]
    ensures SessionsFrom(sessions, m2)
  {
  }

  /** A tree built from a keyed map holds only the map's sessions. */
  lemma {:induction false} BuildSessionsFrom(m: map<string, SessionRecord>, id: string, fuel: nat)
    requires KeyedMap(m) && id in m
    ensures SessionsFrom(TreeSessions(Build(m, id, fuel).value), m)
    decreases fuel, 0
  {
    if fuel > 0 {
      BuildChildrenSessionsFrom(m, m[id].session.childIds, fuel - 1);
    }
  }

  lemma {:induction false} BuildChildrenSessionsFrom(m: map<string, SessionRecord>, ids: seq<string>, fuel: nat)
    requires KeyedMap(m)
    ensures SessionsFrom(ForestSessions(BuildChildren(m, ids, fuel)), m)
    decreases fuel, 1, |ids|
  {
    if |ids| > 0 {
      var rest := BuildChildren(m, ids[1..], fuel);
      BuildChildrenSessionsFrom(m, ids[1..], fuel);
      if ids[0] in m {
        var x := Build(m, ids[0], fuel).value;
        BuildSessionsFrom(m, ids[0], fuel);
        var r := [x] + rest;
        assert r[0] == x && r[1..] == rest;
        assert ForestSessions(r) == TreeSessions(x) + ForestSessions(rest);
      }
    }
  }

  /** Importing a tree whose sessions are those a keyed map holds writes,
      for each id of the tree, the map's session stamped with the import
      time. */
  lemma ImportTreeFrom(target: FlowDir, t: Hierarchy, m: map<string, SessionRecord>, now: int)
    requires SessionsFrom(TreeSessions(t), m)
    ensures var r := ImportTree(target, t, now);
      forall k :: k in TreeIds(t) ==> k in m && r.sessions[k] == SessionRecord(m[k].session, now)
  {
    var r := ImportTree(target, t, now);
    forall k | k in TreeIds(t) ensures k in m && r.sessions[k] == SessionRecord(m[k].session, now) {
      var s := r.sessions[k].session;
      assert s in TreeSessions(t) && s.id == k;
    }
  }

  /** Exported from a directory read through a complete listing, the tree
      is there and holds the session's file at its root. */
  lemma ExportedRoot(d: FlowDir, listing: seq<string>, id: string, date: int)
    requires WellKeyed(d) && ListsSessions(d, listing)
    requires id in d.sessions
    ensures var t := ExportSessionData(d, listing, id, date).value.session;
      t.Some? && t.value.record == d.sessions[id] && id in TreeIds(t.value)
  {
    ByIdOfDirectory(d, listing);
  }

  /** Exported from a directory read through a complete listing, the tree
      holds only the sessions the directory's files hold for their ids. */
  lemma ExportedSessions(d: FlowDir, listing: seq<string>, id: string, date: int)
    requires WellKeyed(d) && ListsSessions(d, listing)
    requires id in d.sessions
    ensures var t := ExportSessionData(d, listing, id, date).value.session;
      t.Some? && SessionsFrom(TreeSessions(t.value), d.sessions)
  {
    var m := ById(ReadAllSessions(d, listing));
    ByIdRecordsAreFiles(d, listing);
    ReadAllSessionsComplete(d, listing, id);
    var t := Build(m, id, |m|).value;
    BuildSessionsFrom(m, id, |m|);
    SessionsFromAgreeing(TreeSessions(t), m, d.sessions);
    assert ExportSessionData(d, listing, id, date).value.session == Some(t);
  }

  /** Exporting a session from a directory read through a complete listing
      and importing the export into any directory recreates every exported
      session with its contents, stamped with the import time, returns the
      exported session, and leaves the target's other session files alone. */
  lemma ExportImportRoundTrip(d: FlowDir, listing: seq<string>, id: string, date: int, target: FlowDir, now: int)
    requires WellKeyed(d) && ListsSessions(d, listing)
    requires id in d.sessions
    ensures var t := ExportSessionData(d, listing, id, date).value.session;
      var imported := ImportSessionData(target, ExportSessionData(d, listing, id, date).value, now);
      && t.Some? && id in TreeIds(t.value)
      && imported.Success?
      && imported.value.1 == d.sessions[id].session
      && imported.value.0.sessions.Keys == target.sessions.Keys + TreeIds(t.value)
      && (forall k :: k in TreeIds(t.value) ==>
            k in d.sessions && imported.value.0.sessions[k] == SessionRecord(d.sessions[k].session, now))
      && (forall k :: k in target.sessions && k !in TreeIds(t.value) ==>
            imported.value.0.sessions[k] == target.sessions[k])
  {
    ExportedRoot(d, listing, id, date);
    ExportedSessions(d, listing, id, date);
    var t := ExportSessionData(d, listing, id, date).value.session.value;
    ImportTreeFrom(target, t, d.sessions, now);
  }
}
