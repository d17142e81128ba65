/**
 The ingestion tables and the database functions on them, each one atomic step at a time `t`:
 claiming with leases and fencing tokens, heartbeat, progress, guarded commit, requeue, poison,
 and the two ways of ingesting a document again.
 */
module Ingestion {

  import opened Wrappers
  import Utf8

  type Id = int
  type Time = int
  type Token = int

  datatype Status = Queued | Running | Completed | Failed | Interrupted

  datatype Stage = Uploaded | Parsing | Chunking | Embedding | Indexing | Ready | FailedStage

  datatype Versions = Versions(parser: int, chunking: int, embedding: int)

  datatype Lease = Lease(token: Token, expires: Time)

  datatype Job = Job(document: Id, status: Status, stage: Stage, attempt: nat, completed: int, total: Option<int>,
                     availableAt: Time, createdAt: Time, updatedAt: Time,
                     lease: Option<Lease>, fence: nat, error: Option<Utf8.Text>)

  /** `content` stands for the hash, size and object key, which no step changes. */
  datatype Document = Document(content: int, state: Stage, error: Option<Utf8.Text>, versions: Versions,
                               pageCount: Option<nat>, chunkCount: nat, uploader: Id, updatedAt: Time)

  datatype Chunk = Chunk(document: Id, ordinal: int, versions: Versions, body: int)

  datatype Row = Row(id: Id, ordinal: int, versions: Versions, body: int)

  datatype State = State(jobs: map<Id, Job>, documents: map<Id, Document>, chunks: map<Id, Chunk>)

  datatype Outcome = Done | Refused | NotFound | ActiveJob | NotRetryable | Stale | Raised

  datatype Result = Result(state: State, outcome: Outcome)

  // ---------- claiming ----------

  predicate Claimable(s: State, t: Time, j: Id) {
    && j in s.jobs && s.jobs[j].document in s.documents
    && (|| (s.jobs[j].status.Queued? && s.jobs[j].availableAt <= t)
        || (s.jobs[j].status.Running? && s.jobs[j].lease.Some? && s.jobs[j].lease.value.expires <= t))
  }

  /** A queued job whose time has come, or a running one whose lease has run out, passes to a new claimant. */
  function Claimed(job: Job, t: Time, token: Token, seconds: int): Job {
    job.(status := Running, attempt := job.attempt + 1, stage := Uploaded, completed := 0, total := None,
         lease := Some(Lease(token, t + seconds)), fence := job.fence + 1, updatedAt := t)
  }

  /** `j` is the candidate the query picked; the claimant chose `seconds`. */
  function Claim(s: State, t: Time, j: Id, token: Token, seconds: int): Result {
    if !(5 <= seconds <= 3600) then Result(s, Raised)
    else if !Claimable(s, t, j) then Result(s, NotFound)
    else Result(s.(jobs := s.jobs[j := Claimed(s.jobs[j], t, token, seconds)]), Done)
  }

  // ---------- what a claimant may do ----------

  /** The guard shared by every step of a claimant. */
  predicate Holds(s: State, t: Time, j: Id, token: Token, fence: nat) {
    && j in s.jobs && s.jobs[j].document in s.documents && s.jobs[j].status.Running? && s.jobs[j].fence == fence
    && s.jobs[j].lease.Some? && s.jobs[j].lease.value.token == token && s.jobs[j].lease.value.expires > t
  }

  function Heartbeat(s: State, t: Time, j: Id, token: Token, fence: nat, seconds: int): Result {
    if !Holds(s, t, j, token, fence) || !(5 <= seconds <= 3600) then Result(s, Refused)
    else
      Result(s.(jobs := s.jobs[j := s.jobs[j].(lease := Some(Lease(token, t + seconds)), updatedAt := t)]), Done)
  }

  function StageOrder(stage: Stage): nat {
    match stage
    case Uploaded => 0
    case Parsing => 1
    case Chunking => 2
    case Embedding => 3
    case Indexing => 4
    case _ => 5
  }

  predicate Regresses(job: Job, stage: Stage, completed: int, total: int) {
    || StageOrder(stage) < StageOrder(job.stage)
    || (StageOrder(stage) == StageOrder(job.stage)
        && (completed < job.completed || (job.total.Some? && total < job.total.value)))
  }

  function Progress(s: State, t: Time, j: Id, token: Token, fence: nat, stage: Stage, completed: int, total: int)
    : Result
  {
    if !(1 <= StageOrder(stage) <= 4) || !(1 <= total <= 1000000) || !(0 <= completed <= total) then Result(s, Raised)
    else if !Holds(s, t, j, token, fence) || Regresses(s.jobs[j], stage, completed, total) then Result(s, Stale)
    else
      var d := s.jobs[j].document;
      Result(s.(jobs := s.jobs[j := s.jobs[j].(stage := stage, completed := completed, total := Some(total),
                                               updatedAt := t)],
                documents := s.documents[d := s.documents[d].(state := stage, error := None, updatedAt := t)]), Done)
  }

  function Without(chunks: map<Id, Chunk>, d: Id): map<Id, Chunk> {
    map c | c in chunks && chunks[c].document != d :: chunks[c]
  }

  predicate DistinctIds(rows: seq<Row>) {
    forall i, k | 0 <= i < k < |rows| :: rows[i].id != rows[k].id
  }

  predicate DistinctOrdinals(rows: seq<Row>) {
    forall i, k | 0 <= i < k < |rows| :: rows[i].ordinal != rows[k].ordinal
  }

  /** The rows can be stored: fresh primary keys, and distinct non-negative ordinals. */
  predicate Storable(chunks: map<Id, Chunk>, rows: seq<Row>) {
    && (forall i | 0 <= i < |rows| :: rows[i].id !in chunks && rows[i].ordinal >= 0)
    && DistinctIds(rows) && DistinctOrdinals(rows)
  }

  function ToChunk(d: Id, row: Row): Chunk {
    Chunk(d, row.ordinal, row.versions, row.body)
  }

  function RowMap(d: Id, rows: seq<Row>): map<Id, Chunk> {
    if rows == [] then map[]
    else
      var last := rows[|rows| - 1];
      RowMap(d, rows[..|rows| - 1])[last.id := ToChunk(d, last)]
  }

  predicate AllVersions(rows: seq<Row>, versions: Versions) {
    forall i | 0 <= i < |rows| :: rows[i].versions == versions
  }

  /** Replaces the document's chunks and completes the job, or refuses, or raises and changes nothing. */
  function Commit(s: State, t: Time, j: Id, token: Token, fence: nat, pages: int, rows: seq<Row>): Result {
    if !Holds(s, t, j, token, fence) || pages < 0 then Result(s, Refused)
    else
      var d := s.jobs[j].document;
      if !AllVersions(rows, s.documents[d].versions) then Result(s, Raised)
      else if !Storable(Without(s.chunks, d), rows) then Result(s, Raised)
      else
        Result(State(s.jobs[j := s.jobs[j].(status := Completed, stage := Ready, completed := |rows|,
                                            total := Some(|rows|), error := None, lease := None, updatedAt := t)],
                     s.documents[d := s.documents[d].(state := Ready, error := None, pageCount := Some(pages),
                                                      chunkCount := |rows|, updatedAt := t)],
                     Without(s.chunks, d) + RowMap(d, rows)), Done)
  }

  function Requeue(s: State, t: Time, j: Id, token: Token, fence: nat, availableAt: Time): Result {
    if !Holds(s, t, j, token, fence) || availableAt <= t then Result(s, Refused)
    else
      Result(s.(jobs := s.jobs[j := s.jobs[j].(status := Queued, error := None, availableAt := availableAt,
                                               lease := None, updatedAt := t)]), Done)
  }

  /** `btrim`: leading and trailing spaces go. */
  function Trim(text: Utf8.Text): Utf8.Text {
    if text == [] then []
    else if text[0] == SPACE then Trim(text[1..])
    else if text[|text| - 1] == SPACE then Trim(text[..|text| - 1])
    else text
  }

  const SPACE := 32

  /** What the driver can send to the database: no lone surrogates, and no U+0000. */
  predicate Sendable(text: Utf8.Text) {
    Utf8.AllScalars(text) && 0 !in text
  }

  function Poison(s: State, t: Time, j: Id, token: Token, fence: nat, error: Utf8.Text): Result {
    if !Sendable(error) then Result(s, Raised)
    else if !Holds(s, t, j, token, fence) || !(1 <= |Trim(error)| <= 500) then Result(s, Refused)
    else
      var d := s.jobs[j].document;
      Result(s.(jobs := s.jobs[j := s.jobs[j].(status := Failed, stage := FailedStage, error := Some(Trim(error)),
                                               lease := None, updatedAt := t)],
                documents := s.documents[d := s.documents[d].(state := FailedStage, error := Some(Trim(error)),
                                                              updatedAt := t)]), Done)
  }

  // ---------- new work ----------

  function NewJob(d: Id, t: Time): Job {
    Job(d, Queued, Uploaded, 0, 0, None, t, t, t, None, 0, None)
  }

  function Upload(s: State, t: Time, d: Id, j: Id, content: int, versions: Versions, uploader: Id): Result {
    if d in s.documents || j in s.jobs then Result(s, Raised)
    else
      Result(s.(jobs := s.jobs[j := NewJob(d, t)],
                documents := s.documents[d := Document(content, Uploaded, None, versions, None, 0, uploader, t)]), Done)
  }

  predicate IsActive(job: Job) {
    job.status.Queued? || job.status.Running?
  }

  ghost predicate HasActiveJob(s: State, d: Id) {
    exists j :: j in s.jobs && s.jobs[j].document == d && IsActive(s.jobs[j])
  }

  predicate NotLater(a: Job, i: Id, b: Job, j: Id) {
    a.createdAt < b.createdAt || (a.createdAt == b.createdAt && i <= j)
  }

  /** `ORDER BY created_at DESC, id DESC LIMIT 1` over the document's jobs. */
  ghost predicate IsLatest(s: State, d: Id, j: Id) {
    && j in s.jobs && s.jobs[j].document == d
    && forall i | i in s.jobs && s.jobs[i].document == d :: NotLater(s.jobs[i], i, s.jobs[j], j)
  }

  ghost function Latest(s: State, d: Id): (r: Option<Id>)
    ensures r.Some? ==> IsLatest(s, d, r.value)
    ensures forall j | IsLatest(s, d, j) :: r == Some(j)
  {
    if j :| IsLatest(s, d, j) then Some(j) else None
  }

  /** The fields whose hash is the snapshot token. */
  datatype Snapshot = Snapshot(id: Id, document: Document, jobId: Id, status: Status, stage: Stage,
                               error: Option<Utf8.Text>, attempt: nat, completed: int, total: Option<int>,
                               updatedAt: Time)

  function SnapshotOf(d: Id, document: Document, j: Id, job: Job): Snapshot {
    Snapshot(d, document, j, job.status, job.stage, job.error, job.attempt, job.completed, job.total, job.updatedAt)
  }

  predicate Retryable(document: Document, job: Job) {
    document.state.FailedStage? && (job.status.Failed? || job.status.Interrupted?)
  }

  /** The document starts over: no chunks, and one more queued job. */
  function Restarted(s: State, t: Time, d: Id, j: Id): State
    requires d in s.documents
  {
    State(s.jobs[j := NewJob(d, t)],
          s.documents[d := s.documents[d].(state := Uploaded, error := None, pageCount := None, chunkCount := 0,
                                           updatedAt := t)],
          Without(s.chunks, d))
  }

  predicate MayReingest(s: State, d: Id, actor: Option<Id>, admin: bool) {
    actor.Some? && d in s.documents && (admin || s.documents[d].uploader == actor.value)
  }

  /** Read only: the token to hand back, if the document may be ingested again. */
  ghost function Prepare(s: State, d: Id, actor: Option<Id>, admin: bool): (r: (Outcome, Option<Snapshot>)) {
    if !MayReingest(s, d, actor, admin) then (NotFound, None)
    else if HasActiveJob(s, d) then (ActiveJob, None)
    else
      var latest := Latest(s, d);
      if latest.None? || !Retryable(s.documents[d], s.jobs[latest.value]) then (NotRetryable, None)
      else (Done, Some(SnapshotOf(d, s.documents[d], latest.value, s.jobs[latest.value])))
  }

  ghost function CommitReingest(s: State, t: Time, d: Id, actor: Option<Id>, admin: bool, token: Snapshot, j: Id)
    : Result
  {
    if !MayReingest(s, d, actor, admin) then Result(s, NotFound)
    else if !s.documents[d].state.FailedStage? then Result(s, NotRetryable)
    else if HasActiveJob(s, d) then Result(s, ActiveJob)
    else
      var latest := Latest(s, d);
      if latest.None? || !Retryable(s.documents[d], s.jobs[latest.value]) then Result(s, NotRetryable)
      else if SnapshotOf(d, s.documents[d], latest.value, s.jobs[latest.value]) != token then Result(s, Stale)
      else if j in s.jobs then Result(s, Raised)
      else Result(Restarted(s, t, d, j), Done)
  }

  /** One job as the operator's token names it. */
  datatype Entry = Entry(id: Id, status: Status, stage: Stage, updatedAt: Time)

  /** The fields whose hash is the operator's token: the document's, and all of its jobs, the latest first. */
  datatype Overview = Overview(id: Id, content: int, state: Stage, updatedAt: Time, jobs: seq<Entry>)

  predicate Names(jobs: map<Id, Job>, d: Id, e: Entry) {
    && e.id in jobs && jobs[e.id].document == d
    && e == Entry(e.id, jobs[e.id].status, jobs[e.id].stage, jobs[e.id].updatedAt)
  }

  /** `ORDER BY created_at DESC, id DESC` over all of the document's jobs. */
  predicate ListsJobs(jobs: map<Id, Job>, d: Id, entries: seq<Entry>) {
    && (forall k | 0 <= k < |entries| :: Names(jobs, d, entries[k]))
    && (forall k, l | 0 <= k < l < |entries| ::
          && entries[k].id != entries[l].id
          && NotLater(jobs[entries[l].id], entries[l].id, jobs[entries[k].id], entries[k].id))
    && (forall j | j in jobs && jobs[j].document == d :: exists k :: 0 <= k < |entries| && entries[k].id == j)
  }

  /** The token is what the document's token would be now. */
  predicate Current(s: State, d: Id, token: Overview)
    requires d in s.documents
  {
    && token.id == d && token.content == s.documents[d].content && token.state == s.documents[d].state
    && token.updatedAt == s.documents[d].updatedAt && ListsJobs(s.jobs, d, token.jobs)
  }

  /** The comparison with the status of a job that does not exist would be neither true nor false. */
  ghost predicate BlocksRetry(s: State, d: Id)
    requires d in s.documents
  {
    var latest := Latest(s, d);
    !s.documents[d].state.FailedStage? || (latest.Some? && !Retryable(s.documents[d], s.jobs[latest.value]))
  }

  /** The operator's variant. */
  ghost function MaintenanceRequeue(s: State, t: Time, d: Id, token: Overview, j: Id, retryOnly: bool): Result {
    if d !in s.documents then Result(s, NotFound)
    else if !Current(s, d, token) then Result(s, Stale)
    else if HasActiveJob(s, d) then Result(s, ActiveJob)
    else if retryOnly && BlocksRetry(s, d) then Result(s, NotRetryable)
    else if j in s.jobs then Result(s, Raised)
    else Result(Restarted(s, t, d, j), Done)
  }
}
