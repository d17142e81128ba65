/** The database functions that search, loop and write row by row, against their one-step specifications. */
module IngestionDatabase {

  import opened Ingestion
  import opened IngestionRuns
  import opened Wrappers
  import opened Sets
  import Utf8

  class Database {
    var jobs: map<Id, Job>
    var documents: map<Id, Document>
    var chunks: map<Id, Chunk>

    constructor (s: State)
      ensures Tables() == s
    {
      jobs, documents, chunks := s.jobs, s.documents, s.chunks;
    }

    function Tables(): State
      reads this
    {
      State(jobs, documents, chunks)
    }

    /** `ORDER BY available_at, created_at`. */
    static predicate NoLater(a: Job, b: Job) {
      a.availableAt < b.availableAt || (a.availableAt == b.availableAt && a.createdAt <= b.createdAt)
    }

    /** Takes over the earliest claimable job that no other session has locked. */
    method ClaimJob(t: Time, locked: set<Id>, token: Token, seconds: int) returns (claimed: Option<Id>)
      modifies this
      ensures claimed.Some? ==>
                && claimed.value !in locked
                && Result(Tables(), Done) == Claim(old(Tables()), t, claimed.value, token, seconds)
                && forall i | Claimable(old(Tables()), t, i) && i !in locked ::
                     var a, b := old(jobs)[claimed.value], old(jobs)[i];
                     a.availableAt < b.availableAt || (a.availableAt == b.availableAt && a.createdAt <= b.createdAt)
      ensures claimed.Some? ==>
                && claimed.value in old(jobs) && documents == old(documents) && chunks == old(chunks)
                && var job := old(jobs)[claimed.value];
                   jobs == old(jobs)[claimed.value :=
                     Job(job.document, Running, Uploaded, job.attempt + 1, 0, None, job.availableAt, job.createdAt, t,
                         Some(Lease(token, t + seconds)), job.fence + 1, job.error)]
      ensures claimed.None? ==>
                && Tables() == old(Tables())
                && (5 <= seconds <= 3600 ==> forall i | Claimable(Tables(), t, i) :: i in locked)
    {
      claimed := None;
      if !(5 <= seconds <= 3600) { return; }
      var rest := jobs.Keys;
      while rest != {}
        invariant rest <= jobs.Keys && Tables() == old(Tables())
        invariant claimed.Some? ==> Claimable(Tables(), t, claimed.value) && claimed.value !in locked
        invariant forall i | i in jobs.Keys - rest && Claimable(Tables(), t, i) && i !in locked ::
                    claimed.Some? && NoLater(jobs[claimed.value], jobs[i])
        decreases rest
      {
        var i := Take(rest);
        if Claimable(Tables(), t, i) && i !in locked {
          if claimed.None? || !NoLater(jobs[claimed.value], jobs[i]) {
            claimed := Some(i);
          }
        }
        rest := rest - {i};
      }
      if claimed.Some? {
        jobs := jobs[claimed.value := Claimed(jobs[claimed.value], t, token, seconds)];
      }
    }

    /** Checks every row against the document's versions, then inserts them one by one, or gives up. */
    method InsertRows(before: map<Id, Chunk>, d: Id, rows: seq<Row>) returns (ok: bool, after: map<Id, Chunk>)
      ensures ok <==> Storable(before, rows)
      ensures ok ==> after == before + RowMap(d, rows)
    {
      after := before;
      for i := 0 to |rows|
        invariant after == before + RowMap(d, rows[..i])
        invariant Storable(before, rows[..i])
      {
        StorableStep(before, rows, i);
        if !Fits(before, rows, i) {
          return false, before;
        }
        assert rows[..i + 1][..i] == rows[..i];
        after := after[rows[i].id := ToChunk(d, rows[i])];
      }
      assert rows[..|rows|] == rows;
      ok := true;
    }

    method CommitJob(t: Time, j: Id, token: Token, fence: nat, pages: int, rows: seq<Row>) returns (outcome: Outcome)
      modifies this
      ensures Result(Tables(), outcome) == Commit(old(Tables()), t, j, token, fence, pages, rows)
      ensures outcome.Done? ==>
                && j in old(jobs) && old(jobs)[j].document in old(documents)
                && var job := old(jobs)[j]; var document := old(documents)[job.document];
                && jobs == old(jobs)[j := Job(job.document, Completed, Ready, job.attempt, |rows|, Some(|rows|),
                                              job.availableAt, job.createdAt, t, None, job.fence, None)]
                && documents == old(documents)[job.document :=
                     Document(document.content, Ready, None, document.versions, Some(pages), |rows|,
                              document.uploader, t)]
                && HasRows(old(chunks), chunks, job.document, rows)
    {
      CommittedRows(Tables(), t, j, token, fence, pages, rows);
      if !Holds(Tables(), t, j, token, fence) || pages < 0 { return Refused; }
      var d := jobs[j].document;
      for i := 0 to |rows|
        invariant Tables() == old(Tables())
        invariant forall k | 0 <= k < i :: rows[k].versions == documents[d].versions
      {
        if rows[i].versions != documents[d].versions { return Raised; }
      }
      var ok, after := InsertRows(Without(chunks, d), d, rows);
      if !ok { return Raised; }
      chunks := after;
      documents := documents[d := documents[d].(state := Ready, error := None, pageCount := Some(pages),
                                                chunkCount := |rows|, updatedAt := t)];
      jobs := jobs[j := jobs[j].(status := Completed, stage := Ready, completed := |rows|, total := Some(|rows|),
                                 error := None, lease := None, updatedAt := t)];
      return Done;
    }

    /** One pass over the document's jobs: the latest of them, and whether any is active. */
    method ScanJobs(d: Id) returns (latest: Option<Id>, active: bool)
      ensures latest == Latest(Tables(), d) && (active <==> HasActiveJob(Tables(), d))
      ensures active <==>
        exists i :: i in jobs && jobs[i].document == d && (jobs[i].status.Queued? || jobs[i].status.Running?)
      ensures latest.None? <==> forall i | i in jobs :: jobs[i].document != d
      ensures latest.Some? ==>
                && latest.value in jobs && jobs[latest.value].document == d
                && forall i | i in jobs && jobs[i].document == d ::
                     var a, b := jobs[i].createdAt, jobs[latest.value].createdAt;
                     a < b || (a == b && i <= latest.value)
    {
      latest, active := None, false;
      var rest := jobs.Keys;
      while rest != {}
        invariant rest <= jobs.Keys
        invariant latest.Some? ==> latest.value in jobs && jobs[latest.value].document == d
        invariant forall i | i in jobs.Keys - rest && jobs[i].document == d ::
                    latest.Some? && NotLater(jobs[i], i, jobs[latest.value], latest.value)
        invariant active <==> exists i :: i in jobs.Keys - rest && jobs[i].document == d && IsActive(jobs[i])
        decreases rest
      {
        var i := Take(rest);
        if jobs[i].document == d {
          active := active || IsActive(jobs[i]);
          if latest.None? || !NotLater(jobs[i], i, jobs[latest.value], latest.value) {
            latest := Some(i);
          }
        }
        rest := rest - {i};
      }
      if latest.Some? {
        assert IsLatest(Tables(), d, latest.value);
      }
    }

    method ReingestDocument(t: Time, d: Id, actor: Option<Id>, admin: bool, token: Snapshot, j: Id)
      returns (outcome: Outcome)
      modifies this
      ensures Result(Tables(), outcome) == CommitReingest(old(Tables()), t, d, actor, admin, token, j)
      ensures outcome.Done? ==> d in old(documents) && StartedOver(old(Tables()), Tables(), t, d, j)
    {
      if !MayReingest(Tables(), d, actor, admin) { return NotFound; }
      if !documents[d].state.FailedStage? { return NotRetryable; }
      var latest, active := ScanJobs(d);
      if active { return ActiveJob; }
      if latest.None? || !Retryable(documents[d], jobs[latest.value]) { return NotRetryable; }
      if SnapshotOf(d, documents[d], latest.value, jobs[latest.value]) != token { return Stale; }
      if j in jobs { return Raised; }
      StartOver(t, d, j);
      return Done;
    }

    method StartOver(t: Time, d: Id, j: Id)
      requires d in documents
      modifies this
      ensures Tables() == Restarted(old(Tables()), t, d, j) && StartedOver(old(Tables()), Tables(), t, d, j)
    {
      chunks := Without(chunks, d);
      documents := documents[d := documents[d].(state := Uploaded, error := None, pageCount := None, chunkCount := 0,
                                                updatedAt := t)];
      jobs := jobs[j := NewJob(d, t)];
    }

    method RequeueForMaintenance(t: Time, d: Id, token: Overview, j: Id, retryOnly: bool) returns (outcome: Outcome)
      modifies this
      ensures Result(Tables(), outcome) == MaintenanceRequeue(old(Tables()), t, d, token, j, retryOnly)
      ensures outcome.Done? ==> d in old(documents) && StartedOver(old(Tables()), Tables(), t, d, j)
      ensures outcome.Done? ==> forall i | i in old(jobs) && old(jobs)[i].document == d ::
        !old(jobs)[i].status.Queued? && !old(jobs)[i].status.Running?
      ensures outcome.Done? && retryOnly ==>
                && old(documents)[d].state.FailedStage?
                && forall i | IsLatest(old(Tables()), d, i) ::
                     old(jobs)[i].status.Failed? || old(jobs)[i].status.Interrupted?
    {
      if d !in documents { return NotFound; }
      if !Current(Tables(), d, token) { return Ingestion.Stale; }
      var latest, active := ScanJobs(d);
      if active { return ActiveJob; }
      if retryOnly
         && (!documents[d].state.FailedStage? || (latest.Some? && !Retryable(documents[d], jobs[latest.value]))) {
        return NotRetryable;
      }
      if j in jobs { return Raised; }
      StartOver(t, d, j);
      return Done;
    }

    method UploadDocument(t: Time, d: Id, j: Id, content: int, versions: Versions, uploader: Id)
      returns (outcome: Outcome)
      modifies this
      ensures Result(Tables(), outcome) == Upload(old(Tables()), t, d, j, content, versions, uploader)
      ensures outcome.Done? <==> d !in old(documents) && j !in old(jobs)
      ensures outcome.Done? ==>
                && chunks == old(chunks) && documents.Keys == old(documents).Keys + {d}
                && jobs.Keys == old(jobs).Keys + {j}
                && documents[d] == Document(content, Uploaded, None, versions, None, 0, uploader, t)
                && jobs[j] == Job(d, Queued, Uploaded, 0, 0, None, t, t, t, None, 0, None)
                && (forall e | e in old(documents) :: documents[e] == old(documents)[e])
                && (forall i | i in old(jobs) :: jobs[i] == old(jobs)[i])
    {
      if d in documents || j in jobs { return Raised; }
      documents := documents[d := Document(content, Uploaded, None, versions, None, 0, uploader, t)];
      jobs := jobs[j := NewJob(d, t)];
      return Done;
    }

    method HeartbeatJob(t: Time, j: Id, token: Token, fence: nat, seconds: int) returns (outcome: Outcome)
      modifies this
      ensures Result(Tables(), outcome) == Heartbeat(old(Tables()), t, j, token, fence, seconds)
      ensures outcome.Done? ==>
                && j in old(jobs) && documents == old(documents) && chunks == old(chunks)
                && var job := old(jobs)[j];
                   jobs == old(jobs)[j :=
                     Job(job.document, job.status, job.stage, job.attempt, job.completed, job.total, job.availableAt,
                         job.createdAt, t, Some(Lease(token, t + seconds)), job.fence, job.error)]
    {
      if !Holds(Tables(), t, j, token, fence) || !(5 <= seconds <= 3600) { return Refused; }
      jobs := jobs[j := jobs[j].(lease := Some(Lease(token, t + seconds)), updatedAt := t)];
      return Done;
    }

    method ReportProgress(t: Time, j: Id, token: Token, fence: nat, stage: Stage, completed: int, total: int)
      returns (outcome: Outcome)
      modifies this
      ensures Result(Tables(), outcome) == Progress(old(Tables()), t, j, token, fence, stage, completed, total)
      ensures outcome.Done? ==>
                && j in old(jobs) && old(jobs)[j].document in old(documents) && chunks == old(chunks)
                && var job := old(jobs)[j]; var document := old(documents)[job.document];
                && jobs == old(jobs)[j := Job(job.document, job.status, stage, job.attempt, completed, Some(total),
                                              job.availableAt, job.createdAt, t, job.lease, job.fence, job.error)]
                && documents == old(documents)[job.document :=
                     Document(document.content, stage, None, document.versions, document.pageCount, document.chunkCount,
                              document.uploader, t)]
    {
      if !(1 <= StageOrder(stage) <= 4) || !(1 <= total <= 1000000) || !(0 <= completed <= total) { return Raised; }
      if !Holds(Tables(), t, j, token, fence) { return Ingestion.Stale; }
      if Regresses(jobs[j], stage, completed, total) { return Ingestion.Stale; }
      var d := jobs[j].document;
      jobs := jobs[j := jobs[j].(stage := stage, completed := completed, total := Some(total), updatedAt := t)];
      documents := documents[d := documents[d].(state := stage, error := None, updatedAt := t)];
      return Done;
    }

    method RequeueJob(t: Time, j: Id, token: Token, fence: nat, availableAt: Time) returns (outcome: Outcome)
      modifies this
      ensures Result(Tables(), outcome) == Requeue(old(Tables()), t, j, token, fence, availableAt)
      ensures outcome.Done? ==>
                && j in old(jobs) && documents == old(documents) && chunks == old(chunks)
                && var job := old(jobs)[j];
                   jobs == old(jobs)[j := Job(job.document, Queued, job.stage, job.attempt, job.completed, job.total,
                                              availableAt, job.createdAt, t, None, job.fence, None)]
    {
      if !Holds(Tables(), t, j, token, fence) || availableAt <= t { return Refused; }
      jobs := jobs[j := jobs[j].(status := Queued, error := None, availableAt := availableAt, lease := None,
                                 updatedAt := t)];
      return Done;
    }

    method PoisonJob(t: Time, j: Id, token: Token, fence: nat, error: Utf8.Text)
      returns (outcome: Outcome)
      modifies this
      ensures Result(Tables(), outcome) == Poison(old(Tables()), t, j, token, fence, error)
      ensures outcome.Done? ==>
                && j in old(jobs) && old(jobs)[j].document in old(documents) && chunks == old(chunks)
                && var job := old(jobs)[j]; var document := old(documents)[job.document];
                && jobs == old(jobs)[j := Job(job.document, Failed, FailedStage, job.attempt, job.completed, job.total,
                                              job.availableAt, job.createdAt, t, None, job.fence, Some(Trim(error)))]
                && documents == old(documents)[job.document :=
                     Document(document.content, FailedStage, Some(Trim(error)), document.versions, document.pageCount,
                              document.chunkCount, document.uploader, t)]
    {
      if !Sendable(error) { return Raised; }
      var safe := Trim(error);
      if !Holds(Tables(), t, j, token, fence) || !(1 <= |safe| <= 500) { return Refused; }
      var d := jobs[j].document;
      jobs := jobs[j := jobs[j].(status := Failed, stage := FailedStage, error := Some(safe), lease := None,
                                 updatedAt := t)];
      documents := documents[d := documents[d].(state := FailedStage, error := Some(safe), updatedAt := t)];
      return Done;
    }

    /** A claim that finds every row but one locked. */
    method ClaimOnly(t: Time, j: Id, token: Token, seconds: int) returns (outcome: Outcome)
      modifies this
      ensures Result(Tables(), outcome) == Claim(old(Tables()), t, j, token, seconds)
    {
      if !(5 <= seconds <= 3600) { return Raised; }
      var claimed := ClaimJob(t, jobs.Keys - {j}, token, seconds);
      return if claimed.Some? then Done else NotFound;
    }

    /** Any step, carried out on the tables. */
    method Perform(t: Time, op: Op) returns (outcome: Outcome)
      modifies this
      ensures Result(Tables(), outcome) == Apply(old(Tables()), t, op)
    {
      hide Upload, Claim, Heartbeat, Progress, Commit, Requeue, Poison, CommitReingest, MaintenanceRequeue;
      match op
      case DoUpload(d, j, content, versions, uploader) =>
        outcome := UploadDocument(t, d, j, content, versions, uploader);
      case DoClaim(j, token, seconds) => outcome := ClaimOnly(t, j, token, seconds);
      case DoHeartbeat(j, token, fence, seconds) => outcome := HeartbeatJob(t, j, token, fence, seconds);
      case DoProgress(j, token, fence, stage, completed, total) =>
        outcome := ReportProgress(t, j, token, fence, stage, completed, total);
      case DoCommit(j, token, fence, pages, rows) => outcome := CommitJob(t, j, token, fence, pages, rows);
      case DoRequeue(j, token, fence, availableAt) => outcome := RequeueJob(t, j, token, fence, availableAt);
      case DoPoison(j, token, fence, error) => outcome := PoisonJob(t, j, token, fence, error);
      case DoReingest(d, actor, admin, snapshot, j) => outcome := ReingestDocument(t, d, actor, admin, snapshot, j);
      case DoMaintenance(d, token, j, retryOnly) => outcome := RequeueForMaintenance(t, d, token, j, retryOnly);
    }
  }

  /** The document is as if it had just been uploaded, with one more job; everything else is as before. */
  predicate StartedOver(before: State, after: State, t: Time, d: Id, j: Id)
    requires d in before.documents
  {
    var document := before.documents[d];
    && after.jobs == before.jobs[j := Job(d, Queued, Uploaded, 0, 0, None, t, t, t, None, 0, None)]
    && after.documents == before.documents[d :=
         Document(document.content, Uploaded, None, document.versions, None, 0, document.uploader, t)]
    && (forall c | c in after.chunks :: c in before.chunks && after.chunks[c] == before.chunks[c])
    && forall c | c in before.chunks :: c in after.chunks <==> before.chunks[c].document != d
  }

  /** The unique constraints, as they meet the next row. */
  predicate Fits(before: map<Id, Chunk>, rows: seq<Row>, i: nat)
    requires i < |rows|
  {
    && rows[i].id !in before && rows[i].ordinal >= 0
    && forall k | 0 <= k < i :: rows[k].id != rows[i].id && rows[k].ordinal != rows[i].ordinal
  }

  lemma StorableStep(before: map<Id, Chunk>, rows: seq<Row>, i: nat)
    requires i < |rows|
    ensures Storable(before, rows[..i + 1]) <==> Storable(before, rows[..i]) && Fits(before, rows, i)
    ensures Storable(before, rows) ==> Fits(before, rows, i)
  {
    var longer, shorter := rows[..i + 1], rows[..i];
    assert forall k | 0 <= k < i :: longer[k] == shorter[k];
    assert longer[i] == rows[i];
  }
}
