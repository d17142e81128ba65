/** What every run of ingestion steps keeps: consistent tables, lease safety, and bounded retries. */
module IngestionRuns {

  import opened Ingestion
  import opened Sets
  import opened Wrappers
  import Utf8

  datatype Op =
    | DoUpload(d: Id, j: Id, content: int, versions: Versions, uploader: Id)
    | DoClaim(j: Id, token: Token, seconds: int)
    | DoHeartbeat(j: Id, token: Token, fence: nat, seconds: int)
    | DoProgress(j: Id, token: Token, fence: nat, stage: Stage, completed: int, total: int)
    | DoCommit(j: Id, token: Token, fence: nat, pages: int, rows: seq<Row>)
    | DoRequeue(j: Id, token: Token, fence: nat, availableAt: Time)
    | DoPoison(j: Id, token: Token, fence: nat, error: Utf8.Text)
    | DoReingest(d: Id, actor: Option<Id>, admin: bool, snapshot: Snapshot, j: Id)
    | DoMaintenance(d: Id, overview: Overview, j: Id, retryOnly: bool)

  ghost function Apply(s: State, t: Time, op: Op): Result {
    match op
    case DoUpload(d, j, content, versions, uploader) => Upload(s, t, d, j, content, versions, uploader)
    case DoClaim(j, token, seconds) => Claim(s, t, j, token, seconds)
    case DoHeartbeat(j, token, fence, seconds) => Heartbeat(s, t, j, token, fence, seconds)
    case DoProgress(j, token, fence, stage, completed, total) =>
      Progress(s, t, j, token, fence, stage, completed, total)
    case DoCommit(j, token, fence, pages, rows) => Commit(s, t, j, token, fence, pages, rows)
    case DoRequeue(j, token, fence, availableAt) => Requeue(s, t, j, token, fence, availableAt)
    case DoPoison(j, token, fence, error) => Poison(s, t, j, token, fence, error)
    case DoReingest(d, actor, admin, snapshot, j) => CommitReingest(s, t, d, actor, admin, snapshot, j)
    case DoMaintenance(d, overview, j, retryOnly) => MaintenanceRequeue(s, t, d, overview, j, retryOnly)
  }

  // ---------- the invariant ----------

  predicate JobOk(s: State, job: Job, now: Time) {
    && job.document in s.documents && (job.lease.Some? <==> job.status.Running?)
    && job.attempt == job.fence && job.updatedAt <= now && job.createdAt <= now
    && (IsActive(job) ==> !s.documents[job.document].state.Ready? && StageOrder(job.stage) <= 4)
  }

  function ChunksOf(chunks: map<Id, Chunk>, d: Id): set<Id> {
    set c | c in chunks && chunks[c].document == d
  }

  /** Only a ready document has chunks, and they carry its versions. */
  predicate ChunkOk(s: State, chunk: Chunk) {
    && chunk.document in s.documents && s.documents[chunk.document].state.Ready?
    && chunk.versions == s.documents[chunk.document].versions
  }

  predicate OneActive(s: State) {
    forall i, j | i in s.jobs && j in s.jobs && i != j && IsActive(s.jobs[i]) && IsActive(s.jobs[j]) ::
      s.jobs[i].document != s.jobs[j].document
  }

  ghost predicate Inv(s: State, now: Time) {
    && (forall j | j in s.jobs :: JobOk(s, s.jobs[j], now))
    && OneActive(s)
    && (forall d | d in s.documents :: s.documents[d].updatedAt <= now)
    && (forall c | c in s.chunks :: ChunkOk(s, s.chunks[c]))
    && (forall d | d in s.documents :: s.documents[d].chunkCount == |ChunksOf(s.chunks, d)|)
  }

  lemma EmptyTables(now: Time)
    ensures Inv(State(map[], map[], map[]), now)
  {
  }

  // ---------- chunk bookkeeping ----------

  lemma {:induction false} RowMapKeys(d: Id, rows: seq<Row>)
    ensures forall c | c in RowMap(d, rows) :: RowMap(d, rows)[c].document == d
    ensures DistinctIds(rows) ==> |RowMap(d, rows).Keys| == |rows|
  {
    if rows != [] {
      var init, last := rows[..|rows| - 1], rows[|rows| - 1];
      RowMapKeys(d, init);
      assert RowMap(d, rows).Keys == RowMap(d, init).Keys + {last.id};
      if DistinctIds(rows) && last.id in RowMap(d, init) {
        var i := RowMapSource(d, init, last.id);
      }
    }
  }

  /** Nothing is stored but the rows. */
  lemma {:induction false} RowMapSource(d: Id, rows: seq<Row>, c: Id) returns (i: nat)
    requires c in RowMap(d, rows)
    ensures i < |rows| && rows[i].id == c
  {
    var k := |rows| - 1;
    i := k;
    if rows[k].id != c {
      i := RowMapSource(d, rows[..k], c);
    }
  }

  /** Each row is stored as given, under its identifier. */
  lemma {:induction false} RowMapStores(d: Id, rows: seq<Row>, i: nat)
    requires DistinctIds(rows) && i < |rows|
    ensures var row := rows[i];
            row.id in RowMap(d, rows) && RowMap(d, rows)[row.id] == Chunk(d, row.ordinal, row.versions, row.body)
  {
    if i < |rows| - 1 {
      RowMapStores(d, rows[..|rows| - 1], i);
    }
  }

  lemma {:induction false} RowMapVersions(d: Id, rows: seq<Row>, v: Versions)
    requires AllVersions(rows, v)
    ensures forall c | c in RowMap(d, rows) :: RowMap(d, rows)[c].versions == v
  {
    if rows != [] { RowMapVersions(d, rows[..|rows| - 1], v); }
  }

  lemma AddedChunks(chunks: map<Id, Chunk>, d: Id, added: map<Id, Chunk>)
    requires forall c | c in added :: added[c].document == d && c !in Without(chunks, d)
    ensures ChunksOf(Without(chunks, d) + added, d) == added.Keys
    ensures forall e | e != d :: ChunksOf(Without(chunks, d) + added, e) == ChunksOf(chunks, e)
  {
    var after := Without(chunks, d) + added;
    forall c ensures c in ChunksOf(after, d) <==> c in added {
    }
    forall e | e != d ensures ChunksOf(after, e) == ChunksOf(chunks, e) {
      forall c ensures c in ChunksOf(after, e) <==> c in ChunksOf(chunks, e) {
      }
    }
  }

  /** After a commit the document has exactly the given rows, and every other document what it had. */
  lemma StoredChunks(chunks: map<Id, Chunk>, d: Id, rows: seq<Row>)
    requires Storable(Without(chunks, d), rows)
    ensures var after := Without(chunks, d) + RowMap(d, rows);
            && ChunksOf(after, d) == RowMap(d, rows).Keys && |ChunksOf(after, d)| == |rows|
            && forall e | e != d :: ChunksOf(after, e) == ChunksOf(chunks, e)
  {
    RowMapKeys(d, rows);
    forall c | c in RowMap(d, rows) ensures c !in Without(chunks, d) {
      var i := RowMapSource(d, rows, c);
    }
    AddedChunks(chunks, d, RowMap(d, rows));
  }

  /** The document's chunks are the given rows, each under its identifier; the other chunks are as before. */
  predicate HasRows(before: map<Id, Chunk>, after: map<Id, Chunk>, d: Id, rows: seq<Row>) {
    && (forall i | 0 <= i < |rows| ::
          && rows[i].id in after
          && after[rows[i].id] == Chunk(d, rows[i].ordinal, rows[i].versions, rows[i].body))
    && (forall c | c in after && after[c].document == d :: exists i :: 0 <= i < |rows| && rows[i].id == c)
    && (forall c | c in before && before[c].document != d :: c in after && after[c] == before[c])
    && (forall c | c in after && after[c].document != d :: c in before)
  }

  /** What a commit needs of its rows: the document's versions, and keys and ordinals that are free. */
  predicate RowsFit(s: State, d: Id, rows: seq<Row>)
    requires d in s.documents
  {
    && (forall i | 0 <= i < |rows| ::
          && rows[i].versions == s.documents[d].versions && rows[i].ordinal >= 0
          && (rows[i].id in s.chunks ==> s.chunks[rows[i].id].document == d))
    && (forall i, k | 0 <= i < k < |rows| :: rows[i].id != rows[k].id && rows[i].ordinal != rows[k].ordinal)
  }

  /** A commit under a held lease goes through exactly if the rows fit, and stores exactly them. */
  lemma CommittedRows(s: State, t: Time, j: Id, token: Token, fence: nat, pages: int, rows: seq<Row>)
    ensures var r := Commit(s, t, j, token, fence, pages, rows);
            && (r.outcome.Done? <==>
                  Holds(s, t, j, token, fence) && pages >= 0 && RowsFit(s, s.jobs[j].document, rows))
            && (r.outcome.Done? ==> HasRows(s.chunks, r.state.chunks, s.jobs[j].document, rows))
  {
    var r := Commit(s, t, j, token, fence, pages, rows);
    if r.outcome.Done? {
      StoredAsGiven(s.chunks, s.jobs[j].document, rows);
    }
  }

  lemma StoredAsGiven(chunks: map<Id, Chunk>, d: Id, rows: seq<Row>)
    requires Storable(Without(chunks, d), rows)
    ensures HasRows(chunks, Without(chunks, d) + RowMap(d, rows), d, rows)
  {
    hide RowMap;
    var added := RowMap(d, rows);
    RowMapKeys(d, rows);
    forall i | 0 <= i < |rows| ensures IsStored(added, d, rows[i]) {
      RowMapStores(d, rows, i);
    }
    forall c | c in added ensures c !in Without(chunks, d) && exists i :: 0 <= i < |rows| && rows[i].id == c {
      var i := RowMapSource(d, rows, c);
    }
    AddedRows(chunks, d, added, rows);
  }

  lemma AddedRows(chunks: map<Id, Chunk>, d: Id, added: map<Id, Chunk>, rows: seq<Row>)
    requires forall i | 0 <= i < |rows| :: IsStored(added, d, rows[i])
    requires forall c | c in added :: added[c].document == d && c !in Without(chunks, d)
    requires forall c | c in added :: exists i :: 0 <= i < |rows| && rows[i].id == c
    ensures HasRows(chunks, Without(chunks, d) + added, d, rows)
  {
    assert forall i | 0 <= i < |rows| :: IsStored(added, d, rows[i]);
  }

  predicate IsStored(chunks: map<Id, Chunk>, d: Id, row: Row) {
    row.id in chunks && chunks[row.id] == Chunk(d, row.ordinal, row.versions, row.body)
  }

  // ---------- one step ----------

  /** A change to one job that leaves it active, or makes it inactive. */
  lemma JobChanged(s: State, now: Time, t: Time, j: Id, job: Job)
    requires Inv(s, now) && now <= t && j in s.jobs && IsActive(s.jobs[j])
    requires job.document == s.jobs[j].document && (job.lease.Some? <==> job.status.Running?)
    requires job.attempt == job.fence && job.updatedAt <= t && job.createdAt == s.jobs[j].createdAt
    requires IsActive(job) ==> StageOrder(job.stage) <= 4
    ensures Inv(s.(jobs := s.jobs[j := job]), t)
  {
    var s' := s.(jobs := s.jobs[j := job]);
    forall i | i in s'.jobs ensures JobOk(s', s'.jobs[i], t) {
      assert JobOk(s, s.jobs[i], now);
    }
    forall c | c in s'.chunks ensures ChunkOk(s', s'.chunks[c]) {
      assert ChunkOk(s, s.chunks[c]);
    }
  }

  /** A change to a document without chunks that leaves it unready. */
  lemma DocumentChanged(s: State, now: Time, d: Id, document: Document)
    requires Inv(s, now) && d in s.documents && !s.documents[d].state.Ready? && !document.state.Ready?
    requires document.chunkCount == s.documents[d].chunkCount && document.updatedAt <= now
    ensures Inv(s.(documents := s.documents[d := document]), now)
  {
    var s' := s.(documents := s.documents[d := document]);
    forall i | i in s'.jobs ensures JobOk(s', s'.jobs[i], now) {
      assert JobOk(s, s.jobs[i], now);
    }
    forall c | c in s'.chunks ensures ChunkOk(s', s'.chunks[c]) {
      assert ChunkOk(s, s.chunks[c]);
    }
  }

  lemma LaterIsFine(s: State, now: Time, t: Time)
    requires Inv(s, now) && now <= t
    ensures Inv(s, t)
  {
    forall j | j in s.jobs ensures JobOk(s, s.jobs[j], t) {
      assert JobOk(s, s.jobs[j], now);
    }
  }

  /** A document without an active job becomes ready with chunks of its own; nobody else's change. */
  lemma ReplacedKeepsInv(s: State, now: Time, d: Id, chunks: map<Id, Chunk>, document: Document)
    requires Inv(s, now) && d in s.documents && !HasActiveJob(s, d)
    requires document.state.Ready? && document.updatedAt <= now && document.chunkCount == |ChunksOf(chunks, d)|
    requires forall c | c in chunks && chunks[c].document == d :: chunks[c].versions == document.versions
    requires forall c | c in chunks && chunks[c].document != d :: c in s.chunks && chunks[c] == s.chunks[c]
    requires forall e | e != d :: ChunksOf(chunks, e) == ChunksOf(s.chunks, e)
    ensures Inv(s.(documents := s.documents[d := document], chunks := chunks), now)
  {
    var s' := s.(documents := s.documents[d := document], chunks := chunks);
    forall i | i in s'.jobs ensures JobOk(s', s'.jobs[i], now) {
      assert JobOk(s, s.jobs[i], now);
    }
    forall c | c in s'.chunks ensures ChunkOk(s', s'.chunks[c]) {
      if chunks[c].document != d { assert ChunkOk(s, s.chunks[c]); }
    }
  }

  lemma CommitKeepsChunks(s: State, now: Time, d: Id, rows: seq<Row>, document: Document)
    requires Inv(s, now) && d in s.documents && !HasActiveJob(s, d)
    requires Storable(Without(s.chunks, d), rows) && AllVersions(rows, document.versions)
    requires document.state.Ready? && document.chunkCount == |rows| && document.updatedAt <= now
    ensures Inv(s.(documents := s.documents[d := document], chunks := Without(s.chunks, d) + RowMap(d, rows)), now)
  {
    hide Inv, HasActiveJob, ChunksOf;
    StoredChunks(s.chunks, d, rows);
    RowMapKeys(d, rows);
    RowMapVersions(d, rows, document.versions);
    ReplacedKeepsInv(s, now, d, Without(s.chunks, d) + RowMap(d, rows), document);
  }

  lemma CommitKeepsInv(s: State, now: Time, t: Time, j: Id, token: Token, fence: nat, pages: int, rows: seq<Row>)
    requires Inv(s, now) && now <= t && Commit(s, t, j, token, fence, pages, rows).outcome.Done?
    ensures Inv(Commit(s, t, j, token, fence, pages, rows).state, t)
  {
    var s' := Commit(s, t, j, token, fence, pages, rows).state;
    var d := s.jobs[j].document;
    assert JobOk(s, s.jobs[j], now);
    JobChanged(s, now, t, j, s'.jobs[j]);
    CommitKeepsChunks(s.(jobs := s'.jobs), t, d, rows, s'.documents[d]);
  }

  /** A document without an active job, and without chunks afterwards, gets a queued job. */
  lemma RestartedKeepsInv(s: State, now: Time, t: Time, d: Id, j: Id)
    requires Inv(s, now) && now <= t && d in s.documents && j !in s.jobs && !HasActiveJob(s, d)
    ensures Inv(Restarted(s, t, d, j), t)
  {
    var s' := Restarted(s, t, d, j);
    AddedChunks(s.chunks, d, map[]);
    assert s'.chunks == Without(s.chunks, d) + map[];
    forall i | i in s'.jobs ensures JobOk(s', s'.jobs[i], t) {
      if i != j { assert JobOk(s, s.jobs[i], now); }
    }
    forall c | c in s'.chunks ensures ChunkOk(s', s'.chunks[c]) {
      assert ChunkOk(s, s.chunks[c]);
    }
  }

  lemma UploadKeepsInv(s: State, now: Time, t: Time, d: Id, j: Id, content: int, versions: Versions, uploader: Id)
    requires Inv(s, now) && now <= t && d !in s.documents && j !in s.jobs
    ensures Inv(Upload(s, t, d, j, content, versions, uploader).state, t)
  {
    var s' := Upload(s, t, d, j, content, versions, uploader).state;
    forall i | i in s'.jobs ensures JobOk(s', s'.jobs[i], t) {
      if i != j { assert JobOk(s, s.jobs[i], now); }
    }
    forall c | c in s'.chunks ensures ChunkOk(s', s'.chunks[c]) {
      assert ChunkOk(s, s.chunks[c]);
    }
    forall c | c in s.chunks ensures s.chunks[c].document != d {
      assert ChunkOk(s, s.chunks[c]);
    }
    assert ChunksOf(s.chunks, d) == {};
  }

  lemma JobIsOk(s: State, now: Time, j: Id)
    requires Inv(s, now) && j in s.jobs
    ensures JobOk(s, s.jobs[j], now)
  {
  }

  /** A claimant's report on its job and its unready document. */
  lemma ReportKeepsInv(s: State, now: Time, t: Time, j: Id, job: Job, document: Document)
    requires Inv(s, now) && now <= t && j in s.jobs && s.jobs[j].status.Running?
    requires job.document == s.jobs[j].document && (job.lease.Some? <==> job.status.Running?)
    requires job.attempt == job.fence && job.updatedAt <= t && job.createdAt == s.jobs[j].createdAt
    requires !document.state.Ready? && document.updatedAt <= t && job.document in s.documents
    requires IsActive(job) ==> StageOrder(job.stage) <= 4
    requires document.chunkCount == s.documents[job.document].chunkCount
    ensures Inv(s.(jobs := s.jobs[j := job], documents := s.documents[job.document := document]), t)
  {
    hide Inv;
    JobIsOk(s, now, j);
    JobChanged(s, now, t, j, job);
    DocumentChanged(s.(jobs := s.jobs[j := job]), t, job.document, document);
  }

  /** Every step keeps the tables consistent. */
  lemma StepKeepsInv(s: State, now: Time, t: Time, op: Op)
    requires Inv(s, now) && now <= t
    ensures Inv(Apply(s, t, op).state, t)
  {
    hide Inv, Storable, Restarted, RowMap, Without, AllVersions;
    var r := Apply(s, t, op);
    LaterIsFine(s, now, t);
    if r.outcome.Done? {
      match op
      case DoUpload(d, j, content, versions, uploader) =>
        UploadKeepsInv(s, now, t, d, j, content, versions, uploader);
      case DoClaim(j, token, seconds) =>
        JobIsOk(s, now, j);
        JobChanged(s, now, t, j, r.state.jobs[j]);
      case DoHeartbeat(j, _, _, _) =>
        JobIsOk(s, now, j);
        JobChanged(s, now, t, j, r.state.jobs[j]);
      case DoProgress(j, _, _, _, _, _) =>
        JobIsOk(s, now, j);
        ReportKeepsInv(s, now, t, j, r.state.jobs[j], r.state.documents[s.jobs[j].document]);
      case DoCommit(j, token, fence, pages, rows) =>
        CommitKeepsInv(s, now, t, j, token, fence, pages, rows);
      case DoRequeue(j, _, _, _) =>
        JobIsOk(s, now, j);
        JobChanged(s, now, t, j, r.state.jobs[j]);
      case DoPoison(j, _, _, _) =>
        JobIsOk(s, now, j);
        ReportKeepsInv(s, now, t, j, r.state.jobs[j], r.state.documents[s.jobs[j].document]);
      case DoReingest(d, _, _, _, j) =>
        RestartedKeepsInv(s, now, t, d, j);
      case DoMaintenance(d, _, j, _) =>
        RestartedKeepsInv(s, now, t, d, j);
    }
  }

  // ---------- runs ----------

  datatype Event = Event(time: Time, op: Op)

  /** The clock does not run backwards. */
  predicate InOrder(start: Time, events: seq<Event>) {
    && (forall i | 0 <= i < |events| :: start <= events[i].time)
    && (forall i, k | 0 <= i < k < |events| :: events[i].time <= events[k].time)
  }

  function End(start: Time, events: seq<Event>): Time {
    if events == [] then start else events[|events| - 1].time
  }

  ghost function Run(s: State, events: seq<Event>): State {
    if events == [] then s
    else
      var k := |events| - 1;
      Apply(Run(s, events[..k]), events[k].time, events[k].op).state
  }

  lemma {:induction false} RunKeepsInv(s: State, now: Time, events: seq<Event>)
    requires Inv(s, now) && InOrder(now, events)
    ensures Inv(Run(s, events), End(now, events))
  {
    if events != [] {
      var k := |events| - 1;
      RunKeepsInv(s, now, events[..k]);
      StepKeepsInv(Run(s, events[..k]), End(now, events[..k]), events[k].time, events[k].op);
    }
  }

  /** In every state a deployment can reach, the counts are right and the versions agree. */
  lemma ReachableTables(now: Time, events: seq<Event>, d: Id)
    requires InOrder(now, events) && d in Run(State(map[], map[], map[]), events).documents
    ensures var s := Run(State(map[], map[], map[]), events);
            && s.documents[d].chunkCount == |ChunksOf(s.chunks, d)|
            && (forall c | c in ChunksOf(s.chunks, d) ::
                  s.documents[d].state.Ready? && s.chunks[c].versions == s.documents[d].versions)
            && (forall i, j | i in s.jobs && j in s.jobs && s.jobs[i].document == s.jobs[j].document == d
                              && IsActive(s.jobs[i]) && IsActive(s.jobs[j]) :: i == j)
  {
    EmptyTables(now);
    RunKeepsInv(State(map[], map[], map[]), now, events);
    var s := Run(State(map[], map[], map[]), events);
    forall c | c in ChunksOf(s.chunks, d)
      ensures s.documents[d].state.Ready? && s.chunks[c].versions == s.documents[d].versions
    {
      assert ChunkOk(s, s.chunks[c]);
    }
  }

  // ---------- every document has a job ----------

  ghost predicate HasJob(s: State, d: Id) {
    exists j :: j in s.jobs && s.jobs[j].document == d
  }

  ghost predicate AllHaveJobs(s: State) {
    forall d | d in s.documents :: HasJob(s, d)
  }

  /** A document comes with its first job, and no step takes a job away or gives it to another document. */
  lemma StepHasJob(s: State, t: Time, op: Op)
    requires AllHaveJobs(s)
    ensures AllHaveJobs(Apply(s, t, op).state)
  {
    var s' := Apply(s, t, op).state;
    forall d | d in s'.documents ensures HasJob(s', d) {
      if d in s.documents {
        var j :| j in s.jobs && s.jobs[j].document == d;
        assert s'.jobs[j].document == d;
      } else {
        assert op.DoUpload? && s'.jobs[op.j].document == d;
      }
    }
  }

  lemma {:induction false} RunHasJob(s: State, events: seq<Event>)
    requires AllHaveJobs(s)
    ensures AllHaveJobs(Run(s, events))
  {
    if events != [] {
      var k := |events| - 1;
      RunHasJob(s, events[..k]);
      StepHasJob(Run(s, events[..k]), events[k].time, events[k].op);
    }
  }

  /** Some job of a non-empty set is the latest in it. */
  lemma {:induction false} LatestAmong(s: State, some: set<Id>) returns (j: Id)
    requires some != {} && some <= s.jobs.Keys
    ensures j in some && forall i | i in some :: NotLater(s.jobs[i], i, s.jobs[j], j)
  {
    var first := AnyOf(some);
    j := first;
    if some != {first} {
      j := LatestAmong(s, some - {first});
      if !NotLater(s.jobs[first], first, s.jobs[j], j) { j := first; }
    }
  }

  lemma HasLatest(s: State, d: Id)
    requires HasJob(s, d)
    ensures Latest(s, d).Some? && IsLatest(s, d, Latest(s, d).value)
  {
    var own := set j | j in s.jobs && s.jobs[j].document == d;
    var some :| some in s.jobs && s.jobs[some].document == d;
    assert some in own;
    var j := LatestAmong(s, own);
    assert IsLatest(s, d, j);
  }

  /** In every reachable state, the operator's retry is refused exactly unless the latest job is retryable. */
  lemma RetryIsRefusedExactly(events: seq<Event>, t: Time, d: Id, token: Overview, j: Id)
    requires d in Run(State(map[], map[], map[]), events).documents
    ensures var s := Run(State(map[], map[], map[]), events);
            && Latest(s, d).Some?
            && (MaintenanceRequeue(s, t, d, token, j, true).outcome.NotRetryable? <==>
                  && Current(s, d, token) && !HasActiveJob(s, d)
                  && !Retryable(s.documents[d], s.jobs[Latest(s, d).value]))
  {
    RunHasJob(State(map[], map[], map[]), events);
    HasLatest(Run(State(map[], map[], map[]), events), d);
  }

  // ---------- leases ----------

  /** Fencing tokens only grow, each claim raises its job's, and a completed job is never touched again. */
  lemma StepFence(s: State, t: Time, op: Op, j: Id)
    requires j in s.jobs
    ensures var r := Apply(s, t, op);
            && j in r.state.jobs && r.state.jobs[j].fence >= s.jobs[j].fence
            && (op.DoClaim? && op.j == j && r.outcome.Done? ==> r.state.jobs[j].fence == s.jobs[j].fence + 1)
            && (s.jobs[j].status.Completed? ==> r.state.jobs[j] == s.jobs[j])
  {
  }

  lemma {:induction false} RunFence(s: State, events: seq<Event>, j: Id)
    requires j in s.jobs
    ensures j in Run(s, events).jobs && Run(s, events).jobs[j].fence >= s.jobs[j].fence
    ensures s.jobs[j].status.Completed? ==> Run(s, events).jobs[j] == s.jobs[j]
  {
    if events != [] {
      var k := |events| - 1;
      RunFence(s, events[..k], j);
      StepFence(Run(s, events[..k]), events[k].time, events[k].op, j);
    }
  }

  /** Whether `op` acts for the claimant of job `j` that was given `fence`. */
  predicate ActsFor(op: Op, j: Id, fence: nat) {
    match op
    case DoHeartbeat(i, _, f, _) => i == j && f == fence
    case DoProgress(i, _, f, _, _, _) => i == j && f == fence
    case DoCommit(i, _, f, _, _) => i == j && f == fence
    case DoRequeue(i, _, f, _) => i == j && f == fence
    case DoPoison(i, _, f, _) => i == j && f == fence
    case _ => false
  }

  /**
   Once a job has been claimed again, whatever happens in between and afterwards, no step of the earlier
   claimant has any effect, with whatever lease token and at whatever time it is tried.
   */
  lemma SupersededClaimIsDead(s: State, first: Event, between: seq<Event>, second: Event, after: seq<Event>,
                              last: Event, j: Id)
    requires first.op.DoClaim? && first.op.j == j && Apply(s, first.time, first.op).outcome.Done?
    requires second.op.DoClaim? && second.op.j == j
    requires Apply(Run(Apply(s, first.time, first.op).state, between), second.time, second.op).outcome.Done?
    requires ActsFor(last.op, j, Apply(s, first.time, first.op).state.jobs[j].fence)
    ensures var s1 := Apply(s, first.time, first.op).state;
            var s2 := Apply(Run(s1, between), second.time, second.op).state;
            var end := Run(s2, after);
            var r := Apply(end, last.time, last.op);
            s2.jobs[j].fence > s1.jobs[j].fence && r.state == end && !r.outcome.Done?
  {
    var s1 := Apply(s, first.time, first.op).state;
    RunFence(s1, between, j);
    var s2 := Apply(Run(s1, between), second.time, second.op).state;
    StepFence(Run(s1, between), second.time, second.op, j);
    RunFence(s2, after, j);
    assert !Holds(Run(s2, after), last.time, j, last.op.token, s1.jobs[j].fence);
  }

  /** While a lease runs, only its own claimant changes the job, and nobody can claim it. */
  lemma HeldIsUntouched(s: State, now: Time, t: Time, op: Op, j: Id, token: Token, fence: nat)
    requires Inv(s, now) && now <= t && Holds(s, t, j, token, fence) && !ActsFor(op, j, fence)
    ensures var r := Apply(s, t, op);
            && j in r.state.jobs && r.state.jobs[j] == s.jobs[j] && r.state.jobs[j].document in r.state.documents
            && (op.DoClaim? && op.j == j ==> !r.outcome.Done?)
  {
    assert JobOk(s, s.jobs[j], now);
    assert IsActive(s.jobs[j]) && HasActiveJob(s, s.jobs[j].document);
  }

  /**
   A claim is exclusive: whatever others do, and even if the claimant itself does nothing, it holds the job with
   its token and fence until its lease has run out, at every moment before that.
   */
  lemma {:induction false} ClaimIsExclusive(s: State, now: Time, claim: Event, events: seq<Event>, t: Time)
    requires Inv(s, now) && now <= claim.time && claim.op.DoClaim? && Apply(s, claim.time, claim.op).outcome.Done?
    requires InOrder(claim.time, events) && End(claim.time, events) <= t < claim.time + claim.op.seconds
    requires forall i | 0 <= i < |events| :: !ActsFor(events[i].op, claim.op.j, s.jobs[claim.op.j].fence + 1)
    ensures var s1 := Apply(s, claim.time, claim.op).state;
            && Holds(Run(s1, events), t, claim.op.j, claim.op.token, s.jobs[claim.op.j].fence + 1)
            && Run(s1, events).jobs[claim.op.j] == s1.jobs[claim.op.j]
  {
    var s1 := Apply(s, claim.time, claim.op).state;
    StepKeepsInv(s, now, claim.time, claim.op);
    if events != [] {
      var k := |events| - 1;
      ClaimIsExclusive(s, now, claim, events[..k], events[k].time);
      RunKeepsInv(s1, claim.time, events[..k]);
      HeldIsUntouched(Run(s1, events[..k]), End(claim.time, events[..k]), events[k].time, events[k].op,
                      claim.op.j, claim.op.token, s.jobs[claim.op.j].fence + 1);
    }
  }

  /** With no step of its own, the claimant keeps the job to itself for exactly as long as its lease is to run. */
  lemma NextClaim(s: State, now: Time, claim: Event, events: seq<Event>, u: Time, token: Token, seconds: int)
    requires Inv(s, now) && now <= claim.time && claim.op.DoClaim? && Apply(s, claim.time, claim.op).outcome.Done?
    requires InOrder(claim.time, events) && End(claim.time, events) < claim.time + claim.op.seconds
    requires End(claim.time, events) <= u
    requires forall i | 0 <= i < |events| :: !ActsFor(events[i].op, claim.op.j, s.jobs[claim.op.j].fence + 1)
    ensures var end := Run(Apply(s, claim.time, claim.op).state, events);
            Apply(end, u, DoClaim(claim.op.j, token, seconds)).outcome.Done? <==>
              5 <= seconds <= 3600 && u >= claim.time + claim.op.seconds
  {
    var s1 := Apply(s, claim.time, claim.op).state;
    var fence := s.jobs[claim.op.j].fence + 1;
    ClaimIsExclusive(s, now, claim, events, End(claim.time, events));
    if u < claim.time + claim.op.seconds {
      ClaimIsExclusive(s, now, claim, events, u);
      OnlyOneHolds(Run(s1, events), u, claim.op.j, claim.op.token, fence, token, fence, seconds);
    }
  }

  /** A queued job whose time has not come stays as it is. */
  lemma QueuedIsUntouched(s: State, t: Time, op: Op, j: Id)
    requires j in s.jobs && s.jobs[j].status.Queued? && t < s.jobs[j].availableAt
    ensures j in Apply(s, t, op).state.jobs && Apply(s, t, op).state.jobs[j] == s.jobs[j]
    ensures s.jobs[j].document in s.documents ==> s.jobs[j].document in Apply(s, t, op).state.documents
  {
    hide Storable, RowMap, Without, AllVersions, Trim, Regresses, Current, Latest;
  }

  /** A job that was requeued waits, whatever happens in between, for exactly as long as its worker asked. */
  lemma {:induction false} RequeuedWaits(s: State, requeue: Event, events: seq<Event>, u: Time, token: Token,
                                         seconds: int)
    requires requeue.op.DoRequeue? && Apply(s, requeue.time, requeue.op).outcome.Done?
    requires forall i | 0 <= i < |events| :: events[i].time < requeue.op.availableAt
    ensures var s1 := Apply(s, requeue.time, requeue.op).state;
            var end := Run(s1, events);
            && requeue.op.j in end.jobs && end.jobs[requeue.op.j] == s1.jobs[requeue.op.j]
            && s1.jobs[requeue.op.j].document in end.documents
            && (Apply(end, u, DoClaim(requeue.op.j, token, seconds)).outcome.Done? <==>
                  5 <= seconds <= 3600 && u >= requeue.op.availableAt)
  {
    var s1 := Apply(s, requeue.time, requeue.op).state;
    if events != [] {
      var k := |events| - 1;
      RequeuedWaits(s, requeue, events[..k], u, token, seconds);
      QueuedIsUntouched(Run(s1, events[..k]), events[k].time, events[k].op, requeue.op.j);
    }
  }

  // ---------- progress ----------

  lemma StagesInOrder()
    ensures StageOrder(Uploaded) < StageOrder(Parsing) < StageOrder(Chunking) < StageOrder(Embedding)
    ensures StageOrder(Embedding) < StageOrder(Indexing) < StageOrder(Ready) == StageOrder(FailedStage)
  {
  }

  /** The job is at a later stage, or at the same one with no fewer units done, of no fewer in all. */
  predicate NoLess(before: Job, after: Job) {
    || StageOrder(before.stage) < StageOrder(after.stage)
    || (StageOrder(before.stage) == StageOrder(after.stage) && before.completed <= after.completed
        && (before.total.Some? ==> after.total.Some? && before.total.value <= after.total.value))
  }

  lemma StepProgress(s: State, now: Time, t: Time, op: Op, j: Id)
    requires Inv(s, now) && j in s.jobs
    ensures var r := Apply(s, t, op);
            j in r.state.jobs && (r.state.jobs[j].fence == s.jobs[j].fence ==> NoLess(s.jobs[j], r.state.jobs[j]))
  {
    hide Storable, RowMap, Without, AllVersions, Trim, Current, Latest;
    JobIsOk(s, now, j);
  }

  lemma NoLessTwice(a: Job, b: Job, c: Job)
    requires NoLess(a, b) && NoLess(b, c)
    ensures NoLess(a, c)
  {
  }

  /** As long as a job is not claimed again, its progress never goes back. */
  lemma {:induction false} ProgressOnlyGrows(s: State, now: Time, events: seq<Event>, j: Id)
    requires Inv(s, now) && InOrder(now, events) && j in s.jobs
    ensures var end := Run(s, events);
            j in end.jobs && s.jobs[j].fence <= end.jobs[j].fence
            && (end.jobs[j].fence == s.jobs[j].fence ==> NoLess(s.jobs[j], end.jobs[j]))
  {
    if events != [] {
      var k := |events| - 1;
      var before := Run(s, events[..k]);
      RunKeepsInv(s, now, events[..k]);
      ProgressOnlyGrows(s, now, events[..k], j);
      StepFence(before, events[k].time, events[k].op, j);
      StepProgress(before, End(now, events[..k]), events[k].time, events[k].op, j);
      var end := Run(s, events);
      if end.jobs[j].fence == s.jobs[j].fence {
        NoLessTwice(s.jobs[j], before.jobs[j], end.jobs[j]);
      }
    }
  }

  /** A report is taken exactly if the lease is held, its numbers make sense, and nothing goes back. */
  lemma ReportIsTakenExactly(s: State, t: Time, j: Id, token: Token, fence: nat, stage: Stage, completed: int,
                             total: int)
    ensures Progress(s, t, j, token, fence, stage, completed, total).outcome.Done? <==>
              && Holds(s, t, j, token, fence) && stage in {Parsing, Chunking, Embedding, Indexing}
              && 0 <= completed <= total && 1 <= total <= 1000000
              && NoLess(s.jobs[j], s.jobs[j].(stage := stage, completed := completed, total := Some(total)))
  {
  }

  /** At any moment at most one claimant can act, nobody can claim, and its heartbeat prolongs its lease. */
  lemma OnlyOneHolds(s: State, t: Time, j: Id, token: Token, fence: nat, token': Token, fence': nat, seconds: int)
    requires Holds(s, t, j, token, fence)
    ensures Holds(s, t, j, token', fence') <==> token' == token && fence' == fence
    ensures !Apply(s, t, DoClaim(j, token', seconds)).outcome.Done?
    ensures Heartbeat(s, t, j, token', fence', seconds).outcome.Done? ==>
              forall u | t <= u < t + seconds ::
                Holds(Heartbeat(s, t, j, token', fence', seconds).state, u, j, token, fence)
  {
  }

  /** A completed job is never claimed, and nothing a claimant does to it succeeds. */
  lemma CompletedIsFinal(s: State, events: seq<Event>, last: Event, j: Id)
    requires j in s.jobs && s.jobs[j].status.Completed?
    ensures j in Run(s, events).jobs && Run(s, events).jobs[j] == s.jobs[j]
    ensures (last.op.DoClaim? && last.op.j == j) || (exists f :: ActsFor(last.op, j, f)) ==>
              !Apply(Run(s, events), last.time, last.op).outcome.Done?
  {
    RunFence(s, events, j);
  }

  // ---------- retries ----------

  function Count(b: bool): nat {
    if b then 1 else 0
  }

  predicate Requeued(r: Result, op: Op, j: Id) {
    op.DoRequeue? && op.j == j && r.outcome.Done?
  }

  ghost function Requeues(s: State, events: seq<Event>, j: Id): nat {
    if events == [] then 0
    else
      var k := |events| - 1;
      Requeues(s, events[..k], j)
      + Count(Requeued(Apply(Run(s, events[..k]), events[k].time, events[k].op), events[k].op, j))
  }

  /** The worker requeues a job only on behalf of an attempt below the maximum. */
  ghost predicate WorkersObey(s: State, events: seq<Event>, j: Id, maximum: nat) {
    events == []
    || (var k := |events| - 1;
        WorkersObey(s, events[..k], j, maximum) && RequeueObeys(Run(s, events[..k]), events[k], j, maximum))
  }

  ghost predicate RequeueObeys(s: State, e: Event, j: Id, maximum: nat) {
    Requeued(Apply(s, e.time, e.op), e.op, j) ==> s.jobs[j].attempt < maximum
  }

  function Remaining(s: State, j: Id, maximum: nat): nat {
    var spent := if j !in s.jobs then 1 else s.jobs[j].fence + if s.jobs[j].status.Running? then 0 else 1;
    if spent < maximum then maximum - spent else 0
  }

  lemma StepRemaining(s: State, now: Time, e: Event, j: Id, maximum: nat)
    requires Inv(s, now) && RequeueObeys(s, e, j, maximum)
    ensures Remaining(Apply(s, e.time, e.op).state, j, maximum)
            + Count(Requeued(Apply(s, e.time, e.op), e.op, j)) <= Remaining(s, j, maximum)
  {
    if j in s.jobs { assert JobOk(s, s.jobs[j], now); }
  }

  /** However often leases expire and workers change, a job is requeued fewer times than it may be attempted. */
  lemma {:induction false} RequeuesAreBounded(s: State, now: Time, events: seq<Event>, j: Id, maximum: nat)
    requires Inv(s, now) && InOrder(now, events) && WorkersObey(s, events, j, maximum)
    ensures Requeues(s, events, j) + Remaining(Run(s, events), j, maximum) <= Remaining(s, j, maximum)
  {
    if events != [] {
      var k := |events| - 1;
      RequeuesAreBounded(s, now, events[..k], j, maximum);
      RunKeepsInv(s, now, events[..k]);
      StepRemaining(Run(s, events[..k]), End(now, events[..k]), events[k], j, maximum);
    }
  }

  // ---------- claims ----------

  predicate ClaimedBy(r: Result, op: Op, j: Id) {
    op.DoClaim? && op.j == j && r.outcome.Done?
  }

  /** The successful claims of a job. */
  ghost function Claims(s: State, events: seq<Event>, j: Id): nat {
    if events == [] then 0
    else
      var k := |events| - 1;
      Claims(s, events[..k], j)
      + Count(ClaimedBy(Apply(Run(s, events[..k]), events[k].time, events[k].op), events[k].op, j))
  }

  predicate TakesOver(s: State, r: Result, op: Op, j: Id) {
    ClaimedBy(r, op, j) && j in s.jobs && s.jobs[j].status.Running?
  }

  /** Those among them that found the lease of an earlier claim expired. */
  ghost function Takeovers(s: State, events: seq<Event>, j: Id): nat {
    if events == [] then 0
    else
      var k := |events| - 1;
      var before := Run(s, events[..k]);
      Takeovers(s, events[..k], j)
      + Count(TakesOver(before, Apply(before, events[k].time, events[k].op), events[k].op, j))
  }

  /** A job that is queued, or yet to be created, is good for one claim. */
  function Waiting(s: State, j: Id): nat {
    if j in s.jobs && !s.jobs[j].status.Queued? then 0 else 1
  }

  lemma StepClaims(s: State, t: Time, op: Op, j: Id)
    ensures var r := Apply(s, t, op);
            Count(ClaimedBy(r, op, j)) + Waiting(r.state, j)
            == Count(Requeued(r, op, j)) + Count(TakesOver(s, r, op, j)) + Waiting(s, j)
  {
  }

  /** Every claim is paid for: by a requeue, by an expired lease, or by the job's creation. */
  lemma {:induction false} ClaimsAreAccountedFor(s: State, events: seq<Event>, j: Id)
    ensures Claims(s, events, j) + Waiting(Run(s, events), j)
         == Requeues(s, events, j) + Takeovers(s, events, j) + Waiting(s, j)
  {
    if events != [] {
      var k := |events| - 1;
      ClaimsAreAccountedFor(s, events[..k], j);
      StepClaims(Run(s, events[..k]), events[k].time, events[k].op, j);
    }
  }

  /** A job is claimed at most as often as it may be attempted, and once more for each lease that ran out. */
  lemma ClaimsAreBounded(s: State, now: Time, events: seq<Event>, j: Id, maximum: nat)
    requires Inv(s, now) && InOrder(now, events) && WorkersObey(s, events, j, maximum) && j !in s.jobs && 1 <= maximum
    ensures Claims(s, events, j) <= maximum + Takeovers(s, events, j)
  {
    RequeuesAreBounded(s, now, events, j, maximum);
    ClaimsAreAccountedFor(s, events, j);
  }
}
