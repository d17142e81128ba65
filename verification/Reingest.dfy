/**
 Ingesting a failed document again is a compare-and-swap: the token handed out by the prepare step
 is accepted at most once, and exactly when nothing it covers has changed. Hashing the snapshot is
 taken to be injective, so the token is the snapshot itself, and the clock advances at every step.
 */
module Reingest {

  import opened Ingestion
  import opened IngestionRuns
  import opened Wrappers

  predicate StrictlyAfter(start: Time, events: seq<Event>) {
    && (forall i | 0 <= i < |events| :: start < events[i].time)
    && (forall i, k | 0 <= i < k < |events| :: events[i].time < events[k].time)
  }

  /** What can have happened to a document since `now`. */
  predicate DocumentSince(before: Document, after: Document, now: Time) {
    after == before || after.updatedAt > now
  }

  /** What can have happened to a job since `now`; once inactive, it stays inactive. */
  predicate JobSince(before: Job, after: Job, now: Time) {
    && (after == before || after.updatedAt > now)
    && after.document == before.document && after.createdAt == before.createdAt
    && (IsActive(after) ==> IsActive(before))
  }

  ghost predicate Since(before: State, after: State, now: Time) {
    && (forall d | d in before.documents ::
          d in after.documents && DocumentSince(before.documents[d], after.documents[d], now))
    && (forall j | j in before.jobs :: j in after.jobs && JobSince(before.jobs[j], after.jobs[j], now))
    && (forall j | j in after.jobs && j !in before.jobs :: after.jobs[j].createdAt > now)
  }

  /** The steps that change existing rows only. */
  lemma ChangeSince(s: State, now: Time, t: Time, op: Op)
    requires now < t && !op.DoUpload? && !op.DoReingest? && !op.DoMaintenance?
    ensures Since(s, Apply(s, t, op).state, now)
  {
    hide Storable, RowMap, Without, AllVersions, Trim, Regresses;
  }

  /** The steps that create a job. */
  lemma CreationSince(s: State, now: Time, t: Time, op: Op)
    requires now < t && (op.DoUpload? || op.DoReingest? || op.DoMaintenance?)
    ensures Since(s, Apply(s, t, op).state, now)
  {
    hide Without, Current, BlocksRetry, HasActiveJob, Latest, Retryable;
  }

  lemma StepSince(s: State, now: Time, t: Time, op: Op)
    requires now < t
    ensures Since(s, Apply(s, t, op).state, now)
  {
    hide Since, Apply;
    if op.DoUpload? || op.DoReingest? || op.DoMaintenance? {
      CreationSince(s, now, t, op);
    } else {
      ChangeSince(s, now, t, op);
    }
  }

  lemma SinceTwice(a: State, b: State, c: State, now: Time, later: Time)
    requires Since(a, b, now) && Since(b, c, later) && now <= later
    ensures Since(a, c, now)
  {
    forall d | d in a.documents ensures d in c.documents && DocumentSince(a.documents[d], c.documents[d], now) {
      assert DocumentSince(b.documents[d], c.documents[d], later);
    }
    forall j | j in a.jobs ensures j in c.jobs && JobSince(a.jobs[j], c.jobs[j], now) {
      assert JobSince(b.jobs[j], c.jobs[j], later);
    }
    forall j | j in c.jobs && j !in a.jobs ensures c.jobs[j].createdAt > now {
      if j in b.jobs { assert JobSince(b.jobs[j], c.jobs[j], later); }
    }
  }

  lemma {:induction false} RunSince(s: State, now: Time, events: seq<Event>)
    requires StrictlyAfter(now, events)
    ensures Since(s, Run(s, events), now)
  {
    if events != [] {
      var k := |events| - 1;
      RunSince(s, now, events[..k]);
      StepSince(Run(s, events[..k]), End(now, events[..k]), events[k].time, events[k].op);
      SinceTwice(s, Run(s, events[..k]), Run(s, events), now, End(now, events[..k]));
    }
  }

  /** The document, and its latest job, are as they were. */
  predicate Untouched(before: State, after: State, d: Id, j: Id) {
    && d in before.documents && d in after.documents && before.documents[d] == after.documents[d]
    && j in before.jobs && j in after.jobs && before.jobs[j] == after.jobs[j]
  }

  /** A job created since is later than every job from before. */
  lemma NewerIsLater(before: State, after: State, now: Time, d: Id, j: Id)
    requires Inv(before, now) && Since(before, after, now) && IsLatest(before, d, j) && IsLatest(after, d, j)
    ensures forall i | i in after.jobs && after.jobs[i].document == d :: i in before.jobs
  {
    assert JobOk(before, before.jobs[j], now) && JobSince(before.jobs[j], after.jobs[j], now);
    forall i | i in after.jobs && after.jobs[i].document == d ensures i in before.jobs {
      assert NotLater(after.jobs[i], i, after.jobs[j], j);
    }
  }

  /** A job of the document failed or was interrupted, and is later than all of its other ones. */
  predicate LastFailed(s: State, d: Id, j: Id) {
    && j in s.jobs && s.jobs[j].document == d && (s.jobs[j].status.Failed? || s.jobs[j].status.Interrupted?)
    && forall i | i in s.jobs && s.jobs[i].document == d && i != j ::
         s.jobs[i].createdAt < s.jobs[j].createdAt || (s.jobs[i].createdAt == s.jobs[j].createdAt && i < j)
  }

  /** Who gets a token, for which documents, and what it says of the job. */
  lemma PreparedExactly(s: State, d: Id, actor: Option<Id>, admin: bool)
    ensures var (outcome, token) := Prepare(s, d, actor, admin);
            && (outcome.Done? <==>
                  && actor.Some? && d in s.documents && (admin || s.documents[d].uploader == actor.value)
                  && s.documents[d].state.FailedStage?
                  && (forall i | i in s.jobs && s.jobs[i].document == d ::
                        !s.jobs[i].status.Queued? && !s.jobs[i].status.Running?)
                  && exists j :: LastFailed(s, d, j))
            && (outcome.Done? <==> token.Some?)
            && (outcome.Done? ==> token.value.id == d && token.value.document == s.documents[d]
                                  && LastFailed(s, d, token.value.jobId))
  {
    var (outcome, token) := Prepare(s, d, actor, admin);
    if outcome.Done? {
      assert IsLatest(s, d, token.value.jobId);
      forall i | i in s.jobs && s.jobs[i].document == d && i != token.value.jobId
        ensures s.jobs[i].createdAt < s.jobs[token.value.jobId].createdAt
                || (s.jobs[i].createdAt == s.jobs[token.value.jobId].createdAt && i < token.value.jobId)
      {
        assert NotLater(s.jobs[i], i, s.jobs[token.value.jobId], token.value.jobId);
      }
      assert LastFailed(s, d, token.value.jobId);
    }
    if j :| LastFailed(s, d, j) {
      assert IsLatest(s, d, j);
    }
  }

  /**
   With a token prepared in `s`, the commit succeeds exactly when the caller is entitled, the new job's
   identifier is free, and the document, its uploader and its latest job are unchanged since.
   */
  lemma CommitIsCompareAndSwap(s: State, now: Time, d: Id, preparer: Option<Id>, asAdmin: bool, events: seq<Event>,
                               t: Time, actor: Option<Id>, admin: bool, j: Id)
    requires Inv(s, now) && StrictlyAfter(now, events) && Prepare(s, d, preparer, asAdmin).0.Done?
    ensures var token := Prepare(s, d, preparer, asAdmin).1.value;
            var s' := Run(s, events);
            CommitReingest(s', t, d, actor, admin, token, j).outcome.Done? <==>
              && actor.Some? && d in s'.documents && (admin || s'.documents[d].uploader == actor.value) && j !in s'.jobs
              && Latest(s', d) == Some(token.jobId) && Untouched(s, s', d, token.jobId)
  {
    var token := Prepare(s, d, preparer, asAdmin).1.value;
    var s' := Run(s, events);
    RunSince(s, now, events);
    assert IsLatest(s, d, token.jobId);
    assert JobOk(s, s.jobs[token.jobId], now);
    assert JobSince(s.jobs[token.jobId], s'.jobs[token.jobId], now);
    if Latest(s', d) == Some(token.jobId) && Untouched(s, s', d, token.jobId) {
      NewerIsLater(s, s', now, d, token.jobId);
      forall i | i in s'.jobs && s'.jobs[i].document == d ensures !IsActive(s'.jobs[i]) {
        assert JobSince(s.jobs[i], s'.jobs[i], now);
      }
      assert !HasActiveJob(s', d);
    }
  }

  /** A token that has created a job never creates another, for any document, caller or job identifier. */
  lemma TokenIsSpentOnce(s: State, now: Time, t: Time, d: Id, actor: Option<Id>, admin: bool, token: Snapshot, j: Id,
                         events: seq<Event>, t': Time, d': Id, actor': Option<Id>, admin': bool, j': Id)
    requires Inv(s, now) && now < t && CommitReingest(s, t, d, actor, admin, token, j).outcome.Done?
    requires StrictlyAfter(t, events)
    ensures var s' := Run(CommitReingest(s, t, d, actor, admin, token, j).state, events);
            !CommitReingest(s', t', d', actor', admin', token, j').outcome.Done?
  {
    var s1 := CommitReingest(s, t, d, actor, admin, token, j).state;
    RunSince(s1, t, events);
    assert token.id == d && token.document == s.documents[d];
    assert DocumentSince(s1.documents[d], Run(s1, events).documents[d], t);
  }

  /** A created job is the document's only active one, and the document waits for it without chunks. */
  lemma CreatedStartsOver(s: State, now: Time, t: Time, d: Id, actor: Option<Id>, admin: bool, token: Snapshot, j: Id)
    requires Inv(s, now) && now < t && CommitReingest(s, t, d, actor, admin, token, j).outcome.Done?
    ensures var s' := CommitReingest(s, t, d, actor, admin, token, j).state;
            && j !in s.jobs && Latest(s', d) == Some(j)
            && (forall i | i in s'.jobs && s'.jobs[i].document == d && IsActive(s'.jobs[i]) :: i == j)
            && ChunksOf(s'.chunks, d) == {} && s'.documents[d].chunkCount == 0
  {
    var s' := CommitReingest(s, t, d, actor, admin, token, j).state;
    forall i | i in s'.jobs && s'.jobs[i].document == d ensures NotLater(s'.jobs[i], i, s'.jobs[j], j) {
      if i != j { assert JobOk(s, s.jobs[i], now); }
    }
    assert IsLatest(s', d, j);
  }

  // ---------- the operator's variant ----------

  function JobsOf(s: State, d: Id): map<Id, Job> {
    map j | j in s.jobs && s.jobs[j].document == d :: s.jobs[j]
  }

  /** The operator's token stays current exactly as long as the document and all of its jobs are as they were. */
  lemma OverviewIsCurrentExactly(s: State, now: Time, d: Id, token: Overview, events: seq<Event>)
    requires Inv(s, now) && StrictlyAfter(now, events) && d in s.documents && Current(s, d, token)
    ensures var s' := Run(s, events);
            && d in s'.documents
            && (Current(s', d, token) <==> s'.documents[d] == s.documents[d] && JobsOf(s', d) == JobsOf(s, d))
  {
    var s' := Run(s, events);
    RunSince(s, now, events);
    assert DocumentSince(s.documents[d], s'.documents[d], now);
    if Current(s', d, token) {
      forall j | j in s'.jobs && s'.jobs[j].document == d ensures j in s.jobs && s'.jobs[j] == s.jobs[j] {
        var k :| 0 <= k < |token.jobs| && token.jobs[k].id == j;
        assert Names(s.jobs, d, token.jobs[k]) && Names(s'.jobs, d, token.jobs[k]);
        assert JobOk(s, s.jobs[j], now) && JobSince(s.jobs[j], s'.jobs[j], now);
      }
      forall j | j in s.jobs && s.jobs[j].document == d ensures j in s'.jobs && s'.jobs[j].document == d {
        assert JobSince(s.jobs[j], s'.jobs[j], now);
      }
    }
    if s'.documents[d] == s.documents[d] && JobsOf(s', d) == JobsOf(s, d) {
      SameJobsSameList(s, s', d, token.jobs);
    }
  }

  lemma SameJobsSameList(s: State, s': State, d: Id, entries: seq<Entry>)
    requires JobsOf(s', d) == JobsOf(s, d) && ListsJobs(s.jobs, d, entries)
    ensures ListsJobs(s'.jobs, d, entries)
  {
    forall k | 0 <= k < |entries|
      ensures Names(s'.jobs, d, entries[k]) && s'.jobs[entries[k].id] == s.jobs[entries[k].id]
    {
      assert Names(s.jobs, d, entries[k]);
      assert entries[k].id in JobsOf(s, d) && entries[k].id in JobsOf(s', d);
    }
    forall j | j in s'.jobs && s'.jobs[j].document == d ensures j in s.jobs && s.jobs[j].document == d {
      assert j in JobsOf(s', d) && j in JobsOf(s, d);
    }
  }

  /** An operator's token that has created a job never creates another. */
  lemma OverviewIsSpentOnce(s: State, t: Time, d: Id, token: Overview, j: Id, retryOnly: bool, events: seq<Event>,
                            t': Time, d': Id, j': Id, retryOnly': bool)
    requires MaintenanceRequeue(s, t, d, token, j, retryOnly).outcome.Done? && StrictlyAfter(t, events)
    ensures var s' := Run(MaintenanceRequeue(s, t, d, token, j, retryOnly).state, events);
            !MaintenanceRequeue(s', t', d', token, j', retryOnly').outcome.Done?
  {
    var s1 := MaintenanceRequeue(s, t, d, token, j, retryOnly).state;
    RunSince(s1, t, events);
    var s' := Run(s1, events);
    assert JobSince(s1.jobs[j], s'.jobs[j], t);
    forall k | 0 <= k < |token.jobs| ensures token.jobs[k].id != j {
      assert Names(s.jobs, d, token.jobs[k]);
    }
  }
}
