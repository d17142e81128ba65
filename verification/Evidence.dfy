/**
 The benchmark's signed evidence: the guarded runner that collects it while talking to a server that may answer
 anything, and the harness that later decides, by its own rules, whether to believe it.
 */
module Evidence {

  import opened Sets
  import opened Sorting
  import opened Wrappers

  type Id = int

  /** What ties a payload to one benchmark run; `context` is the source and runtime identity. */
  datatype Binding = Binding(run: Id, nonce: Id, deployment: Id, store: Id, isolated: bool, namespace: Id,
                             corpus: Id, fixture: Id)

  datatype Profile = Profile(warm: bool, contended: bool)

  datatype Correlation = Correlation(sample: Id, nonce: Id, profile: Id, evidence: Id, execution: Id)

  /** What is measured; `observations` stands for the metrics and the client's own timings. */
  datatype Task = Task(sample: Id, stage: Id, caseId: Option<Id>, document: Option<Id>, fixture: Option<Id>,
                       profile: Profile, repetition: nat)

  datatype Sample = Sample(task: Task, profileId: Id, executionId: Id, observations: int, ackId: Option<Id>)

  datatype Namespace = Empty | Owned(documents: seq<Id>)

  datatype Body =
    | Pre(namespace: Namespace, measured: set<Profile>)
    | ProfileAck(profile: Profile, applied: bool, active: nat, queued: nat, correlation: Correlation)
    | Execution(task: Task, profileId: Id, success: bool, correlation: Correlation, metrics: int)
    | SampleAck(sample: Id, executionId: Id, signed: Sample)
    | Post(namespace: Namespace)

  datatype Payload = Payload(id: Id, binding: Binding, context: Id, sequence: int, body: Body)

  datatype Permit = Permit(binding: Binding, adopted: seq<Id>)

  /** Every profile a benchmark must measure. */
  const REQUIRED: set<Profile> :=
    {Profile(false, false), Profile(false, true), Profile(true, false), Profile(true, true)}

  predicate FullLoad(p: Profile, active: nat, queued: nat) {
    active == 1 && queued == if p.contended then 1 else 0
  }

  /** A measured namespace has seen all four profiles; a load is full with one request, or one more in the queue. */
  lemma RequiredProfiles(warm: bool, contended: bool)
    ensures Profile(warm, contended) in REQUIRED && |REQUIRED| == 4
    ensures REQUIRED == {Profile(false, false), Profile(false, true), Profile(true, false), Profile(true, true)}
    ensures forall a: nat, q: nat :: FullLoad(Profile(warm, true), a, q) <==> (a, q) == (1, 1)
    ensures forall a: nat, q: nat :: FullLoad(Profile(warm, false), a, q) <==> (a, q) == (1, 0)
  {
    var three := {Profile(false, false), Profile(false, true), Profile(true, false)};
    assert |three| == 3 && REQUIRED == three + {Profile(true, true)};
  }

  // ---------- the harness ----------

  datatype Collected = Collected(pre: Payload, post: Payload, profiles: set<Payload>, executions: seq<Payload>,
                                 acks: seq<Payload>)

  predicate BoundTo(p: Payload, binding: Binding, context: Id) {
    p.binding == binding && p.context == context
  }

  predicate UniqueIds(s: seq<Payload>) {
    forall i, j | 0 <= i < j < |s| :: s[i].id != s[j].id
  }

  predicate AttestationsAccepted(e: Collected, binding: Binding, context: Id) {
    && e.pre.body.Pre? && e.post.body.Post? && binding.isolated
    && BoundTo(e.pre, binding, context) && BoundTo(e.post, binding, context)
    && e.pre.sequence < e.post.sequence && e.pre.body.namespace.Empty? && e.post.body.namespace.Empty?
    && e.pre.body.measured == REQUIRED
  }

  predicate ProfilesAccepted(e: Collected, binding: Binding, context: Id) {
    && (forall p | p in e.profiles :: && p.body.ProfileAck? && p.body.applied && BoundTo(p, binding, context)
                                      && FullLoad(p.body.profile, p.body.active, p.body.queued))
    && (forall p, q | p in e.profiles && q in e.profiles && p != q :: p.id != q.id)
  }

  predicate ExecutionsAccepted(e: Collected, binding: Binding, context: Id, samples: seq<Sample>) {
    && (forall i | 0 <= i < |e.executions| :: && e.executions[i].body.Execution? && e.executions[i].body.success
                                              && BoundTo(e.executions[i], binding, context))
    && UniqueIds(e.executions) && |e.executions| == |samples|
  }

  predicate AcksAccepted(e: Collected, binding: Binding, context: Id, samples: seq<Sample>) {
    && (forall i | 0 <= i < |e.acks| :: e.acks[i].body.SampleAck? && BoundTo(e.acks[i], binding, context))
    && UniqueIds(e.acks) && |e.acks| == |samples|
  }

  /** A sample's three pieces of evidence agree with it and come in order. */
  predicate Supports(e: Collected, s: Sample, profile: Payload, execution: Payload, ack: Payload) {
    && profile.body.ProfileAck? && execution.body.Execution? && ack.body.SampleAck?
    && profile.id == s.profileId && execution.id == s.executionId && s.ackId == Some(ack.id)
    && ack.body.sample == s.task.sample && ack.body.executionId == s.executionId
    && ack.body.signed == s.(ackId := None)
    && execution.body.task == s.task && execution.body.profileId == s.profileId
    && profile.body.profile == s.task.profile
    && execution.body.correlation.sample == s.task.sample && execution.body.correlation.nonce == e.pre.binding.nonce
    && profile.body.correlation == execution.body.correlation
    && e.pre.sequence < profile.sequence < execution.sequence < ack.sequence < e.post.sequence
  }

  predicate SampleAccepted(e: Collected, s: Sample) {
    exists p, i, j | p in e.profiles && 0 <= i < |e.executions| && 0 <= j < |e.acks| ::
      Supports(e, s, p, e.executions[i], e.acks[j])
  }

  function AllPayloads(e: Collected): set<Payload> {
    {e.pre, e.post} + e.profiles + (set i | 0 <= i < |e.executions| :: e.executions[i])
    + (set i | 0 <= i < |e.acks| :: e.acks[i])
  }

  /** No sequence number is used twice, and all of them lie between the two attestations. */
  predicate SequencesAccepted(e: Collected) {
    && (forall p, q | p in AllPayloads(e) && q in AllPayloads(e) && p != q :: p.sequence != q.sequence)
    && (forall p | p in AllPayloads(e) && p != e.pre && p != e.post :: e.pre.sequence < p.sequence < e.post.sequence)
  }

  predicate Accepts(e: Collected, binding: Binding, context: Id, samples: seq<Sample>) {
    && AttestationsAccepted(e, binding, context) && ProfilesAccepted(e, binding, context)
    && ExecutionsAccepted(e, binding, context, samples) && AcksAccepted(e, binding, context, samples)
    && (forall i | 0 <= i < |samples| :: SampleAccepted(e, samples[i]))
    && (forall i, j | 0 <= i < j < |samples| :: samples[i].profileId != samples[j].profileId)
    && SequencesAccepted(e)
  }

  // ---------- the runner ----------

  predicate Increasing(history: seq<Payload>) {
    forall i, j | 0 <= i < j < |history| :: history[i].sequence < history[j].sequence
  }

  lemma KeyOf<K, V>(m: map<K, V>, v: V) returns (k: K)
    requires v in m.Values
    ensures k in m && m[k] == v
  {
    k :| k in m && m[k] == v;
  }

  predicate NoRepeats(ids: seq<Id>) {
    forall i, j | 0 <= i < j < |ids| :: ids[i] != ids[j]
  }

  lemma {:induction false} InjectiveSize(m: map<Id, Id>)
    requires forall f, g | f in m && g in m && m[f] == m[g] :: f == g
    ensures |m.Values| == |m.Keys|
  {
    if m != map[] {
      var f := AnyOf(m.Keys);
      var rest := m - {f};
      assert m.Keys == rest.Keys + {f};
      forall v | v in m.Values ensures v in rest.Values + {m[f]} {
        var g := KeyOf(m, v);
        assert g != f ==> g in rest && rest[g] == v;
      }
      InjectiveSize(rest);
      assert m.Values == rest.Values + {m[f]} && m[f] !in rest.Values;
    }
  }

  /**
   What deleting one document comes to: confirmed, one of the three kinds of error that are caught, or anything else,
   such as an answer that is not UTF-8 or a connection the server drops.
   */
  datatype Deletion = Gone | NotGone | Escaped

  /** The documents whose deletion is tried. */
  function Tried(documents: seq<Id>, answer: Id -> Deletion): seq<Id> {
    if documents == [] then []
    else [documents[0]] + if answer(documents[0]).Escaped? then [] else Tried(documents[1..], answer)
  }

  lemma TriedStep(documents: seq<Id>, answer: Id -> Deletion, i: nat)
    requires i < |documents|
    ensures Tried(documents[i..], answer)
         == [documents[i]] + if answer(documents[i]).Escaped? then [] else Tried(documents[i + 1..], answer)
  {
    assert documents[i..][1..] == documents[i + 1..];
  }

  /** The first `n` deletions were confirmed. */
  predicate AllGone(documents: seq<Id>, n: nat, answer: Id -> Deletion)
    requires n <= |documents|
  {
    forall k | 0 <= k < n :: answer(documents[k]).Gone?
  }

  predicate NothingEscapes(documents: seq<Id>, n: nat, answer: Id -> Deletion)
    requires n <= |documents|
  {
    forall k | 0 <= k < n :: !answer(documents[k]).Escaped?
  }

  lemma TriedOn(documents: seq<Id>, answer: Id -> Deletion, i: nat, tried: seq<Id>)
    requires i < |documents| && Tried(documents, answer) == tried + Tried(documents[i..], answer)
    ensures Tried(documents, answer) == (tried + [documents[i]])
              + if answer(documents[i]).Escaped? then [] else Tried(documents[i + 1..], answer)
  {
    TriedStep(documents, answer, i);
  }

  lemma NoneTried(answer: Id -> Deletion)
    ensures Tried([], answer) == []
  {
  }

  lemma {:induction false} TriedIsBeginning(documents: seq<Id>, answer: Id -> Deletion)
    ensures Tried(documents, answer) <= documents
    ensures |Tried(documents, answer)| == |documents| <==>
              forall i | 0 <= i < |documents| - 1 :: !answer(documents[i]).Escaped?
    ensures forall i | 0 <= i < |documents| && answer(documents[i]).Escaped? :: |Tried(documents, answer)| <= i + 1
  {
    if documents != [] {
      var rest := documents[1..];
      TriedIsBeginning(rest, answer);
      assert documents == [documents[0]] + rest;
      forall i | 0 <= i < |documents| && answer(documents[i]).Escaped? ensures |Tried(documents, answer)| <= i + 1 {
        if i > 0 { assert rest[i - 1] == documents[i]; }
      }
      assert forall i | 1 <= i < |documents| - 1 :: rest[i - 1] == documents[i];
      assert forall i | 0 <= i < |rest| - 1 :: documents[i + 1] == rest[i];
    }
  }

  /** Every created document is tried exactly if nothing unexpected escapes, but for the deletion of the last one. */
  lemma AllAreTriedExactly(created: set<Id>, answer: Id -> Deletion)
    ensures (forall d :: d in Tried(Sorted(created), answer) <==> d in created) <==>
              forall d, e | d in created && e in created && d < e :: !answer(d).Escaped?
  {
    var all := Sorted(created);
    var tried := Tried(all, answer);
    TriedIsBeginning(all, answer);
    if |tried| == |all| {
      assert tried == all;
      forall d, e | d in created && e in created && d < e ensures !answer(d).Escaped? {
        var i :| 0 <= i < |all| && all[i] == d;
        var j :| 0 <= j < |all| && all[j] == e;
      }
    } else {
      var last := all[|all| - 1];
      assert last in created;
      assert forall i | 0 <= i < |tried| :: tried[i] == all[i] && all[i] < last;
      var i :| 0 <= i < |all| - 1 && answer(all[i]).Escaped?;
      assert all[i] in created && all[i] < last;
    }
  }

  /** What comes after a deletion that lets anything escape is never tried. */
  lemma NothingAfterEscape(created: set<Id>, answer: Id -> Deletion, d: Id, e: Id)
    requires d in created && e in created && d < e && answer(d).Escaped?
    ensures e !in Tried(Sorted(created), answer)
  {
    var all := Sorted(created);
    TriedIsBeginning(all, answer);
    var i :| 0 <= i < |all| && all[i] == d;
    assert forall j | 0 <= j < |Tried(all, answer)| :: Tried(all, answer)[j] == all[j] && all[j] <= d;
  }

  class GuardedRunner {
    const permit: Permit
    var lastSequence: int
    var context: Option<Id>
    var pre: Option<Payload>
    var post: Option<Payload>
    var profiles: map<Id, Payload>
    var correlations: map<Id, Correlation>
    var executions: seq<Payload>
    var acks: seq<Payload>
    var samples: seq<Sample>
    /** The documents to delete in the end, and those uploaded for the fixtures among them. */
    var created: set<Id>
    var documents: map<Id, Id>
    /** How often an answer was not accepted, or the clean-up did not succeed. */
    ghost var refusals: nat
    /** Every payload that passed verification, in order. */
    ghost var history: seq<Payload>
    /** The evidence identifiers of the profile acknowledgements, in order, and which one each sample used. */
    ghost var profileIds: seq<Id>
    ghost var profileOf: seq<nat>

    constructor (permit: Permit)
      requires permit.binding.isolated
      ensures Valid() && this.permit == permit && pre.None? && post.None? && samples == []
      ensures Tracked() && created == {}
    {
      this.permit := permit;
      lastSequence, context, pre, post := 0, None, None, None;
      profiles, correlations, executions, acks, samples := map[], map[], [], [], [];
      created, documents, refusals := {}, map[], 0;
      history, profileIds, profileOf := [], [], [];
    }

    ghost predicate Bound(p: Payload)
      reads this`context
    {
      context.Some? && BoundTo(p, permit.binding, context.value)
    }

    ghost predicate HistoryValid()
      reads this`context, this`history, this`lastSequence
    {
      && Increasing(history) && 0 <= lastSequence
      && (forall i | 0 <= i < |history| :: Bound(history[i]) && 0 < history[i].sequence <= lastSequence)
    }

    /** The acknowledgement a profile identifier now stands for. */
    ghost predicate ProfileKept(id: Id)
      reads this`profiles, this`correlations, this`history
    {
      ProfileKeptIn(id, history)
    }

    ghost predicate ProfileKeptIn(id: Id, history: seq<Payload>)
      reads this`profiles, this`correlations
    {
      && id in profiles && id in correlations && profiles[id].id == id && profiles[id] in history
      && profiles[id].body.ProfileAck? && profiles[id].body.applied
      && FullLoad(profiles[id].body.profile, profiles[id].body.active, profiles[id].body.queued)
      && profiles[id].body.correlation == correlations[id]
    }

    ghost predicate ProfilesValid()
      reads this`profiles, this`correlations, this`history, this`profileIds
    {
      && profiles.Keys == correlations.Keys
      && (forall id | id in profiles :: ProfileKept(id))
      && (forall i | 0 <= i < |profileIds| :: profileIds[i] in profiles)
    }

    /** The evidence behind a sample; its profile may be lost if an identifier was used twice. */
    ghost predicate Backed(s: Sample, execution: Payload, ack: Payload, at: nat, history: seq<Payload>,
                           profiles: map<Id, Payload>, profileIds: seq<Id>)
    {
      && execution in history && ack in history && execution.body.Execution? && execution.body.success
      && execution.id == s.executionId && ack.body == SampleAck(s.task.sample, s.executionId, s)
      && execution.body.task == s.task && execution.body.profileId == s.profileId
      && execution.body.correlation.sample == s.task.sample && execution.body.correlation.nonce == permit.binding.nonce
      && execution.sequence < ack.sequence
      && at < |profileIds| && profileIds[at] == s.profileId
      && (NoRepeats(profileIds) ==>
            && s.profileId in profiles && profiles[s.profileId].body.ProfileAck?
            && profiles[s.profileId].body.profile == s.task.profile
            && profiles[s.profileId].body.correlation == execution.body.correlation
            && profiles[s.profileId].sequence < execution.sequence)
    }

    ghost predicate IsBacked(s: Sample, execution: Payload, ack: Payload, at: nat, history: seq<Payload>,
                             profiles: map<Id, Payload>, profileIds: seq<Id>)
    {
      s.ackId == Some(ack.id) && Backed(s.(ackId := None), execution, ack, at, history, profiles, profileIds)
    }

    ghost predicate SampleKept(i: nat)
      requires i < |samples| == |executions| == |acks| == |profileOf|
      reads this`samples, this`executions, this`acks, this`profileOf, this`profileIds, this`profiles, this`history
    {
      IsBacked(samples[i], executions[i], acks[i], profileOf[i], history, profiles, profileIds)
    }

    ghost predicate AllBacked(samples: seq<Sample>, executions: seq<Payload>, acks: seq<Payload>, profileOf: seq<nat>,
                              history: seq<Payload>, profiles: map<Id, Payload>, profileIds: seq<Id>)
    {
      && |samples| == |executions| == |acks| == |profileOf|
      && (forall i | 0 <= i < |samples| ::
            IsBacked(samples[i], executions[i], acks[i], profileOf[i], history, profiles, profileIds))
      && (forall i, j | 0 <= i < j < |profileOf| :: profileOf[i] < profileOf[j])
      && UniqueIds(executions)
    }

    ghost predicate SamplesValid()
      reads this`samples, this`executions, this`acks, this`profileOf, this`profileIds, this`profiles, this`history
    {
      AllBacked(samples, executions, acks, profileOf, history, profiles, profileIds)
    }

    ghost predicate PreValid()
      reads this`pre, this`history
    {
      pre.Some? ==>
        && pre.value.body.Pre? && |history| > 0 && history[0] == pre.value
        && (pre.value.body.namespace.Empty? <==> permit.adopted == []) && pre.value.body.measured == REQUIRED
    }

    ghost predicate Valid()
      reads this`lastSequence, this`context, this`pre, this`history, this`profiles, this`correlations, this`profileIds,
        this`executions, this`acks, this`samples, this`profileOf
    {
      permit.binding.isolated && HistoryValid() && ProfilesValid() && SamplesValid() && PreValid()
    }

    /** A payload bound to this run, newer than every one before it, from the same source and runtime. */
    ghost predicate Admissible(p: Payload)
      reads this`lastSequence, this`context
    {
      && p.binding == permit.binding && p.sequence > lastSequence
      && (context.Some? ==> context.value == p.context)
    }

    /** The checks every payload must pass; only then does the runner remember its sequence number. */
    method Verify(p: Payload) returns (ok: bool)
      requires HistoryValid()
      modifies this`lastSequence, this`context, this`history
      ensures HistoryValid() && (ok <==> old(Admissible(p)))
      ensures if ok then history == old(history) + [p] && lastSequence == p.sequence
              else history == old(history) && lastSequence == old(lastSequence) && context == old(context)
      ensures ok ==> Bound(p) && (old(context).Some? ==> context == old(context))
      ensures ok ==> forall i | 0 <= i < |old(history)| :: old(history)[i].sequence < p.sequence
    {
      if p.binding != permit.binding || p.sequence <= lastSequence { return false; }
      if context.Some? && context.value != p.context { return false; }
      context := Some(p.context);
      lastSequence := p.sequence;
      history := history + [p];
      return true;
    }

    /** What the runner may find on its first request: nothing, or exactly the documents it was allowed to adopt. */
    ghost predicate StartsClean(body: Body)
    {
      && body.Pre? && body.measured == REQUIRED
      && body.namespace == if permit.adopted == [] then Empty else Owned(permit.adopted)
    }

    function Adopted(): set<Id> {
      set d | d in permit.adopted
    }

    method Attest(p: Payload) returns (ok: bool)
      requires Valid() && pre.None? && history == [] && samples == [] && profiles == map[]
      modifies this`refusals, this`lastSequence, this`context, this`history, this`pre, this`created
      ensures HistoryValid() && PreValid()
      ensures ok <==> old(Admissible(p)) && StartsClean(p.body)
      ensures ok ==> && p.body == Pre(if permit.adopted == [] then Empty else Owned(permit.adopted), REQUIRED)
                     && p.binding == permit.binding
      ensures ok ==> Valid() && pre == Some(p) && history == [p]
      ensures created == if ok then old(created) + Adopted() else old(created)
      ensures !ok ==> pre.None?
      ensures refusals == if ok then old(refusals) else old(refusals) + 1
    {
      hide Adopted, Backed, IsBacked, Increasing, UniqueIds, FullLoad;
      ok := Verify(p);
      refusals := refusals + 1;
      if !ok { return; }
      ok := IsClean(p.body);
      if !ok { return; }
      refusals := refusals - 1;
      pre := Some(p);
      created := created + Adopted();
      assert history == [p];
    }

    /** The checks of the first answer, in their order. */
    method IsClean(body: Body) returns (ok: bool)
      ensures ok <==> StartsClean(body)
    {
      if !body.Pre? { return false; }
      match body.namespace {
        case Empty => if permit.adopted != [] { return false; }
        case Owned(documents) => if documents != permit.adopted || documents == [] { return false; }
      }
      return body.measured == REQUIRED;
    }

    lemma HistoryGrows(before: seq<Payload>)
      requires before <= history
      requires AllBacked(samples, executions, acks, profileOf, before, profiles, profileIds)
      ensures SamplesValid()
    {
      assert forall q | q in before :: q in history;
      forall i | 0 <= i < |samples| ensures SampleKept(i) {
        assert IsBacked(samples[i], executions[i], acks[i], profileOf[i], before, profiles, profileIds);
      }
    }

    lemma ProfilesStay(before: seq<Payload>)
      requires before <= history && profiles.Keys == correlations.Keys
      requires forall i | 0 <= i < |profileIds| :: profileIds[i] in profiles
      requires forall id | id in profiles :: ProfileKeptIn(id, before)
      ensures ProfilesValid()
    {
      assert forall q | q in before :: q in history;
      forall id | id in profiles ensures ProfileKept(id) {
        assert ProfileKeptIn(id, before);
      }
    }

    /** A new acknowledgement loses no sample's profile unless its identifier was used before. */
    lemma ProfileAdded(p: Payload)
      requires SamplesValid()
      ensures AllBacked(samples, executions, acks, profileOf, history, profiles[p.id := p], profileIds + [p.id])
    {
      var ids, ps := profileIds + [p.id], profiles[p.id := p];
      forall i | 0 <= i < |samples|
        ensures IsBacked(samples[i], executions[i], acks[i], profileOf[i], history, ps, ids)
      {
        assert SampleKept(i);
        assert ids[profileOf[i]] == profileIds[profileOf[i]];
        if NoRepeats(ids) {
          assert forall k | 0 <= k < |profileIds| :: ids[k] == profileIds[k];
          assert ids[|profileIds|] == p.id;
        }
      }
    }

    /** A request and its answer `p`; what was collected before stays valid, whatever the answer. */
    method Ask(p: Payload) returns (ok: bool)
      requires Valid() && pre.Some?
      modifies this`lastSequence, this`context, this`history
      ensures Valid() && (ok <==> old(Admissible(p)))
      ensures ok ==> history == old(history) + [p] && p in history && old(context).Some? && context == old(context)
      ensures ok ==> forall q | q in old(history) :: q.sequence < p.sequence
    {
      ghost var before := history;
      assert Bound(history[0]);
      forall id | id in profiles ensures ProfileKeptIn(id, before) {
        assert ProfileKept(id);
      }
      ok := Verify(p);
      if ok {
        assert history[|history| - 1] == p;
        ProfilesStay(before);
        HistoryGrows(before);
      }
    }

    /** The server has put the requested profile into force for this very request. */
    predicate Confirms(p: Payload, profile: Profile, correlation: Correlation)
    {
      && p.body.ProfileAck? && p.body.profile == profile && p.body.applied && p.body.correlation == correlation
      && FullLoad(profile, p.body.active, p.body.queued)
    }

    /** Asks for a profile and remembers the acknowledgement under its evidence identifier. */
    method SetProfile(profile: Profile, correlation: Correlation, p: Payload) returns (ok: bool)
      requires Valid() && pre.Some? && correlation.nonce == permit.binding.nonce
      modifies this`refusals
      modifies this`lastSequence, this`context, this`history, this`profiles, this`correlations, this`profileIds
      ensures Valid() && (ok <==> old(Admissible(p)) && Confirms(p, profile, correlation))
      ensures profileIds == if ok then old(profileIds) + [p.id] else old(profileIds)
      ensures profiles == if ok then old(profiles)[p.id := p] else old(profiles)
      ensures correlations == if ok then old(correlations)[p.id := correlation] else old(correlations)
      ensures refusals == if ok then old(refusals) else old(refusals) + 1
    {
      ok := Ask(p);
      ok := ok && Confirms(p, profile, correlation);
      if !ok {
        refusals := refusals + 1;
        return;
      }
      Remember(p);
    }

    method Remember(p: Payload)
      requires Valid() && p in history && p.body.ProfileAck? && p.body.applied
      requires FullLoad(p.body.profile, p.body.active, p.body.queued)
      modifies this`profiles, this`correlations, this`profileIds
      ensures Valid() && profileIds == old(profileIds) + [p.id]
      ensures profiles == old(profiles)[p.id := p] && correlations == old(correlations)[p.id := p.body.correlation]
    {
      ProfileAdded(p);
      forall x | x in profiles ensures ProfileKeptIn(x, history) {
        assert ProfileKept(x);
      }
      profiles := profiles[p.id := p];
      correlations := correlations[p.id := p.body.correlation];
      profileIds := profileIds + [p.id];
      forall x | x in profiles ensures ProfileKept(x) {
      }
    }

    /** The evidence says that the task ran to completion, as requested and under its profile, and is not used yet. */
    predicate Executed(p: Payload, task: Task, profileId: Id)
      reads this`correlations, this`executions
      requires profileId in correlations
    {
      && p.body.Execution? && p.body.task == task && p.body.profileId == profileId
      && p.body.correlation == correlations[profileId] && p.body.success
      && forall k | 0 <= k < |executions| :: executions[k].id != p.id
    }

    method AskExecution(task: Task, profileId: Id, p: Payload) returns (ok: bool)
      requires Valid() && pre.Some? && profileId in profiles && profileId in correlations
      modifies this`refusals, this`lastSequence, this`context, this`history
      ensures Valid() && (ok <==> old(Admissible(p)) && Executed(p, task, profileId))
      ensures ok ==> p in history && profiles[profileId].sequence < p.sequence
      ensures refusals == if ok then old(refusals) else old(refusals) + 1
    {
      assert ProfileKept(profileId);
      ok := Ask(p);
      if ok { ok := Executed(p, task, profileId); }
      if !ok { refusals := refusals + 1; }
    }

    /** The server's signature under a sample. */
    method Seal(sample: Sample, p: Payload) returns (ok: bool)
      requires Valid() && pre.Some? && sample.ackId.None?
      modifies this`refusals, this`lastSequence, this`context, this`history
      ensures Valid()
      ensures ok <==> old(Admissible(p)) && p.body == SampleAck(sample.task.sample, sample.executionId, sample)
      ensures ok ==> p in history && old(history) <= history && forall q | q in old(history) :: q.sequence < p.sequence
      ensures refusals == if ok then old(refusals) else old(refusals) + 1
    {
      ok := Ask(p);
      if ok { ok := p.body == SampleAck(sample.task.sample, sample.executionId, sample); }
      if !ok { refusals := refusals + 1; }
    }

    /** Two fixtures never share a document, and every one of them is to be deleted. */
    ghost predicate Tracked()
      reads this`created, this`documents
    {
      && (forall f | f in documents :: documents[f] in created)
      && (forall f, g | f in documents && g in documents && documents[f] == documents[g] :: f == g)
    }

    /** A fixture the server accepts becomes a new document, under an identifier no fixture has yet. */
    method Upload(fixture: Id, document: Id, accepted: bool) returns (ok: bool)
      requires Tracked()
      modifies this`refusals, this`created, this`documents
      ensures Tracked()
      ensures ok <==> accepted && fixture !in old(documents) && document !in old(documents).Values
      ensures created == if ok then old(created) + {document} else old(created)
      ensures documents == if ok then old(documents)[fixture := document] else old(documents)
      ensures refusals == if ok then old(refusals) else old(refusals) + 1
    {
      if !accepted || fixture in documents || document in documents.Values {
        refusals := refusals + 1;
        return false;
      }
      created := created + {document};
      documents := documents[fixture := document];
      return true;
    }

    /** All ten fixtures, and only they, were uploaded; that their documents differ needs no check. */
    method CheckCorpus(fixtures: set<Id>) returns (ok: bool)
      requires Tracked()
      modifies this`refusals
      ensures ok <==> |fixtures| == 10 && documents.Keys == fixtures
      ensures refusals == if ok then old(refusals) else old(refusals) + 1
    {
      InjectiveSize(documents);
      ok := |fixtures| == 10 && documents.Keys == fixtures && |documents.Values| == 10;
      if !ok { refusals := refusals + 1; }
    }

    /** The evidence that the task was executed, after the upload if there is one. */
    method Obtain(task: Task, upload: Option<(Id, Id)>, profileId: Id, p: Payload) returns (ok: bool)
      requires Valid() && pre.Some? && Tracked() && profileId in profiles && profileId in correlations
      modifies this`refusals, this`lastSequence, this`context, this`history, this`created, this`documents
      ensures Valid() && Tracked() && old(created) <= created
      ensures ok ==> p in history && profiles[profileId].sequence < p.sequence && Executed(p, task, profileId)
      ensures refusals == if ok then old(refusals) else old(refusals) + 1
    {
      hide Valid, Tracked, Executed;
      ok := true;
      var accepted: bool := *;
      if upload.Some? { ok := Upload(upload.value.0, upload.value.1, accepted); }
      if ok { ok := AskExecution(task, profileId, p); }
    }

    /** One recorded measurement: its own profile, the upload if there is one, its execution, and the sealed sample. */
    method Measure(task: Task, upload: Option<(Id, Id)>) returns (ok: bool)
      requires Valid() && pre.Some? && Tracked()
      modifies this`refusals
      modifies this`lastSequence, this`context, this`history, this`profiles, this`correlations, this`profileIds
      modifies this`executions, this`acks, this`samples, this`profileOf, this`created, this`documents
      ensures Valid() && Tracked() && old(created) <= created
      ensures if ok then |samples| == |old(samples)| + 1 && samples[..|old(samples)|] == old(samples)
                         && samples[|old(samples)|].task == task
              else samples == old(samples)
      ensures refusals == if ok then old(refusals) else old(refusals) + 1
    {
      hide Tracked, Admissible, Executed;
      forall k | 0 <= k < |profileOf| ensures profileOf[k] < |profileIds| {
        assert SampleKept(k);
      }
      var correlation: Correlation, confirmed: Payload, execution: Payload, ack: Payload := *, *, *, *;
      correlation := correlation.(sample := task.sample, nonce := permit.binding.nonce);
      ok := SetProfile(task.profile, correlation, confirmed);
      if !ok { return; }
      var id := confirmed.id;
      ok := Obtain(task, upload, id, execution);
      if ok { ok := Conclude(task, id, execution, ack); }
    }

    /** Has the sample sealed and records it. */
    method Conclude(task: Task, id: Id, execution: Payload, ack: Payload) returns (ok: bool)
      requires Valid() && pre.Some? && id in profiles && id in correlations && profileIds != []
      requires profileIds[|profileIds| - 1] == id
      requires forall k | 0 <= k < |profileOf| :: profileOf[k] < |profileIds| - 1
      requires execution in history && Executed(execution, task, id) && profiles[id].sequence < execution.sequence
      requires profiles[id].body.ProfileAck? && profiles[id].body.profile == task.profile
      requires correlations[id].sample == task.sample && correlations[id].nonce == permit.binding.nonce
      modifies this`refusals
      modifies this`lastSequence, this`context, this`history, this`executions, this`acks, this`samples, this`profileOf
      ensures Valid()
      ensures if ok then |samples| == |old(samples)| + 1 && samples[..|old(samples)|] == old(samples)
                         && samples[|old(samples)|].task == task
              else samples == old(samples)
      ensures refusals == if ok then old(refusals) else old(refusals) + 1
    {
      var observations: int := *;
      var sample := Sample(task, id, execution.id, observations, None);
      ok := Seal(sample, ack);
      if !ok { return; }
      assert ProfileKept(id);
      Record(sample, execution, ack);
    }

    method Record(sample: Sample, execution: Payload, ack: Payload)
      requires Valid() && sample.ackId.None? && profileIds != []
      requires Backed(sample, execution, ack, |profileIds| - 1, history, profiles, profileIds)
      requires forall k | 0 <= k < |executions| :: executions[k].id != execution.id
      requires forall k | 0 <= k < |profileOf| :: profileOf[k] < |profileIds| - 1
      modifies this`executions, this`acks, this`samples, this`profileOf
      ensures Valid() && samples == old(samples) + [sample.(ackId := Some(ack.id))]
    {
      hide AllBacked, IsBacked, Backed, Increasing, BoundTo;
      AllBackedAppend(samples, executions, acks, profileOf, sample, execution, ack);
      samples := samples + [sample.(ackId := Some(ack.id))];
      executions := executions + [execution];
      acks := acks + [ack];
      profileOf := profileOf + [|profileIds| - 1];
    }

    lemma AllBackedAppend(ss: seq<Sample>, es: seq<Payload>, aa: seq<Payload>, os: seq<nat>,
                          sample: Sample, execution: Payload, ack: Payload)
      requires AllBacked(ss, es, aa, os, history, profiles, profileIds) && sample.ackId.None? && profileIds != []
      requires Backed(sample, execution, ack, |profileIds| - 1, history, profiles, profileIds)
      requires forall k | 0 <= k < |es| :: es[k].id != execution.id
      requires forall k | 0 <= k < |os| :: os[k] < |profileIds| - 1
      ensures AllBacked(ss + [sample.(ackId := Some(ack.id))], es + [execution], aa + [ack],
                        os + [|profileIds| - 1], history, profiles, profileIds)
    {
    }

    /** The loop over the documents; it goes on after an error that is caught. */
    method DeleteEach(documents: seq<Id>, answer: Id -> Deletion)
      returns (errors: bool, escaped: bool, ghost tried: seq<Id>)
      ensures tried == Tried(documents, answer)
      ensures escaped <==> !NothingEscapes(documents, |documents|, answer)
      ensures errors || escaped <==> !AllGone(documents, |documents|, answer)
    {
      hide Tried;
      errors, escaped, tried := false, false, [];
      assert documents[0..] == documents;
      for i := 0 to |documents|
        invariant Tried(documents, answer) == tried + Tried(documents[i..], answer)
        invariant errors <==> !AllGone(documents, i, answer)
        invariant NothingEscapes(documents, i, answer)
      {
        TriedOn(documents, answer, i, tried);
        tried := tried + [documents[i]];
        if answer(documents[i]).Escaped? { return errors, true, tried; }
        errors := errors || !answer(documents[i]).Gone?;
      }
      NoneTried(answer);
      assert documents[|documents|..] == [];
    }

    /**
     The created documents are deleted, each after those before it even if these could not be, up to one that lets
     anything unexpected escape. Only if nothing escapes, the namespace is attested once more. It ends well exactly
     if all deletions were confirmed and the namespace is empty.
     */
    method CleanUp(p: Payload, answer: Id -> Deletion) returns (ok: bool, ghost tried: seq<Id>)
      requires Valid() && pre.Some?
      modifies this`refusals, this`lastSequence, this`context, this`history, this`post
      ensures tried == Tried(Sorted(created), answer)
      ensures ok <==> (forall d | d in created :: answer(d).Gone?) && old(Admissible(p)) && p.body == Post(Empty)
      ensures ok ==> Finished() && post == Some(p)
      ensures (exists d | d in created :: answer(d).Escaped?) ==> history == old(history) && post == old(post)
      ensures refusals == if ok then old(refusals) else old(refusals) + 1
    {
      hide Valid, Finished, Admissible, Tried;
      var errors, escaped;
      var documents := Sort(created);
      SortedListingUnique(documents, Sorted(created), created);
      errors, escaped, tried := DeleteEach(documents, answer);
      assert forall d | d in created :: d in documents;
      assert forall k | 0 <= k < |documents| :: documents[k] in created;
      if escaped {
        refusals := refusals + 1;
        return false, tried;
      }
      ok := AttestAgain(p, errors);
    }

    /** The namespace must be empty now; a run with errors fails all the same. */
    method AttestAgain(p: Payload, errors: bool) returns (ok: bool)
      requires Valid() && pre.Some?
      modifies this`refusals, this`lastSequence, this`context, this`history, this`post
      ensures ok <==> !errors && old(Admissible(p)) && p.body == Post(Empty)
      ensures ok ==> Finished() && post == Some(p)
      ensures refusals == if ok then old(refusals) else old(refusals) + 1
    {
      ok := Ask(p);
      ok := ok && p.body == Post(Empty);
      if ok { post := Some(p); }
      ok := ok && !errors;
      if !ok { refusals := refusals + 1; }
    }

    ghost predicate Finished()
      reads this
    {
      && Valid() && pre.Some? && post.Some? && context.Some? && post.value.body == Post(Empty)
      && |history| > 1 && history[|history| - 1] == post.value
    }

    /** One step of a plan: only measurements and ingestions record a sample. */
    method Perform(step: Step) returns (ok: bool)
      requires Valid() && pre.Some? && Tracked()
      modifies this`refusals
      modifies this`lastSequence, this`context, this`history, this`profiles, this`correlations, this`profileIds
      modifies this`executions, this`acks, this`samples, this`profileOf, this`created, this`documents
      ensures Valid() && Tracked() && old(created) <= created
      ensures ok ==> TasksOf(samples) == TasksOf(old(samples)) + Recorded([step])
      ensures refusals == if ok then old(refusals) else old(refusals) + 1
    {
      hide Valid, Tracked;
      match step {
        case WarmUp(profile, sample) =>
          var correlation: Correlation, confirmed: Payload := *, *;
          ok := SetProfile(profile, correlation.(sample := sample, nonce := permit.binding.nonce), confirmed);
        case Ingest(task, fixture, document) =>
          ok := Measure(task, Some((fixture, document)));
          if ok { assert samples == old(samples) + [samples[|old(samples)|]]; }
        case Corpus(fixtures) =>
          ok := CheckCorpus(fixtures);
        case Record(task) =>
          ok := Measure(task, None);
          if ok { assert samples == old(samples) + [samples[|old(samples)|]]; }
      }
    }

    /** The steps of a plan up to the first that fails. */
    method PerformAll(plan: seq<Step>) returns (ok: bool)
      requires Valid() && pre.Some? && Tracked() && samples == []
      modifies this`refusals
      modifies this`lastSequence, this`context, this`history, this`profiles, this`correlations, this`profileIds
      modifies this`executions, this`acks, this`samples, this`profileOf, this`created, this`documents
      ensures Valid() && Tracked() && old(created) <= created
      ensures ok ==> TasksOf(samples) == Recorded(plan)
      ensures refusals == if ok then old(refusals) else old(refusals) + 1
    {
      hide Valid, Tracked;
      for i := 0 to |plan|
        invariant Valid() && pre.Some? && Tracked() && old(created) <= created
        invariant TasksOf(samples) == Recorded(plan[..i]) && refusals == old(refusals)
      {
        ok := Perform(plan[i]);
        if !ok { return; }
        RecordedStep(plan, i);
      }
      assert plan[..|plan|] == plan;
      ok := true;
    }

    /**
     A whole run over any plan. The server may answer anything; once the run has begun, deletion is tried for the
     documents it recorded as created or adopted, as far as `Tried` says, however it ends. A run that completes has
     deleted them all, has measured exactly the tasks of its plan, and has collected a consistent body of evidence.
     */
    method Run(plan: seq<Step>, answer: Id -> Deletion) returns (ok: bool, ghost tried: seq<Id>)
      requires Valid() && pre.None? && history == [] && samples == [] && profiles == map[]
      requires Tracked() && created == {}
      modifies this
      ensures ok ==> Finished() && TasksOf(samples) == Recorded(plan) && forall d | d in created :: answer(d).Gone?
      ensures ok <==> refusals == old(refusals)
      ensures pre.Some? ==> Adopted() <= created && tried == Tried(Sorted(created), answer)
      ensures pre.None? ==> created == {} && tried == []
    {
      hide Valid, Finished, Admissible, Recorded, TasksOf, Tried;
      var first: Payload, last: Payload := *, *;
      tried := [];
      ok := Attest(first);
      if !ok { return; }
      ok := PerformAll(plan);
      var clean;
      clean, tried := CleanUp(last, answer);
      ok := ok && clean;
    }

    /** What the run hands to the harness. */
    ghost function Evidence(): Collected
      requires pre.Some? && post.Some?
      reads this
    {
      Collected(pre.value, post.value, profiles.Values, executions, acks)
    }

    // ---------- the harness believes it ----------

    lemma SequencesDiffer(p: Payload, q: Payload)
      requires HistoryValid() && p in history && q in history && p != q
      ensures p.sequence != q.sequence
    {
      var i :| 0 <= i < |history| && history[i] == p;
      var j :| 0 <= j < |history| && history[j] == q;
      assert i < j || j < i;
    }

    lemma BetweenAttestations(p: Payload)
      requires Finished() && p in history && p != pre.value && p != post.value
      ensures pre.value.sequence < p.sequence < post.value.sequence
    {
      var i :| 0 <= i < |history| && history[i] == p;
      assert 0 < i < |history| - 1;
    }

    lemma CollectedIsVerified(p: Payload)
      requires Finished() && p in AllPayloads(Evidence())
      ensures p in history && BoundTo(p, permit.binding, context.value)
    {
      assert history[0] == pre.value && history[|history| - 1] == post.value;
      if p in profiles.Values {
        var id := KeyOf(profiles, p);
        assert ProfileKept(id);
      } else if i :| 0 <= i < |executions| && executions[i] == p {
        assert SampleKept(i);
      } else if i :| 0 <= i < |acks| && acks[i] == p {
        assert SampleKept(i);
      }
      var k :| 0 <= k < |history| && history[k] == p;
      assert Bound(history[k]);
    }

    lemma SequencesAreAccepted()
      requires Finished()
      ensures SequencesAccepted(Evidence())
    {
      var all := AllPayloads(Evidence());
      forall p, q | p in all && q in all && p != q ensures p.sequence != q.sequence {
        CollectedIsVerified(p);
        CollectedIsVerified(q);
        SequencesDiffer(p, q);
      }
      forall p | p in all && p != pre.value && p != post.value
        ensures pre.value.sequence < p.sequence < post.value.sequence
      {
        CollectedIsVerified(p);
        BetweenAttestations(p);
      }
    }

    lemma ProfilesAreAccepted()
      requires Finished()
      ensures ProfilesAccepted(Evidence(), permit.binding, context.value)
    {
      forall p | p in profiles.Values
        ensures p.body.ProfileAck? && p.body.applied && BoundTo(p, permit.binding, context.value)
        ensures FullLoad(p.body.profile, p.body.active, p.body.queued) && p.id in profiles && profiles[p.id] == p
      {
        var id := KeyOf(profiles, p);
        assert ProfileKept(id);
        assert p in AllPayloads(Evidence());
        CollectedIsVerified(p);
      }
    }

    lemma SampleIsAccepted(i: nat)
      requires Finished() && NoRepeats(profileIds) && i < |samples|
      ensures SampleAccepted(Evidence(), samples[i])
    {
      var e, s := Evidence(), samples[i];
      assert SampleKept(i) && ProfileKept(s.profileId);
      var profile := profiles[s.profileId];
      assert profile in e.profiles;
      BetweenAttestations(profile);
      BetweenAttestations(acks[i]);
      assert Bound(history[0]);
      assert Supports(e, s, profile, executions[i], acks[i]);
    }

    lemma ListsAreAccepted()
      requires Finished() && UniqueIds(acks)
      ensures ExecutionsAccepted(Evidence(), permit.binding, context.value, samples)
      ensures AcksAccepted(Evidence(), permit.binding, context.value, samples)
    {
      forall i | 0 <= i < |samples|
        ensures executions[i].body.Execution? && executions[i].body.success && acks[i].body.SampleAck?
        ensures BoundTo(executions[i], permit.binding, context.value) && BoundTo(acks[i], permit.binding, context.value)
      {
        assert SampleKept(i);
        assert executions[i] in AllPayloads(Evidence()) && acks[i] in AllPayloads(Evidence());
        CollectedIsVerified(executions[i]);
        CollectedIsVerified(acks[i]);
      }
    }

    lemma ReferencesAreUnique()
      requires Valid() && NoRepeats(profileIds)
      ensures forall i, j | 0 <= i < j < |samples| :: samples[i].profileId != samples[j].profileId
    {
      forall i, j | 0 <= i < j < |samples| ensures samples[i].profileId != samples[j].profileId {
        assert SampleKept(i) && SampleKept(j) && profileOf[i] < profileOf[j];
      }
    }

    /**
     When the server used no identifier twice, the evidence of a completed run passes the harness's separate
     check exactly if the run started from an empty namespace: the runner also accepts a namespace it had adopted
     documents from, and the harness does not.
     */
    lemma CompletedRunIsAccepted()
      requires Finished() && NoRepeats(profileIds) && UniqueIds(acks)
      ensures Accepts(Evidence(), permit.binding, context.value, samples) <==> permit.adopted == []
    {
      var e := Evidence();
      SequencesAreAccepted();
      ProfilesAreAccepted();
      ListsAreAccepted();
      ReferencesAreUnique();
      forall i | 0 <= i < |samples| ensures SampleAccepted(e, samples[i]) {
        SampleIsAccepted(i);
      }
      assert e.pre in AllPayloads(e) && e.post in AllPayloads(e);
      CollectedIsVerified(e.pre);
      CollectedIsVerified(e.post);
      assert history[0].sequence < history[|history| - 1].sequence;
    }
  }

  /**
   What a plan consists of: unrecorded profiles, ingestions of a fixture under the identifier the server will give it,
   the check that the corpus is complete, and recorded measurements.
   */
  datatype Step =
    | WarmUp(profile: Profile, sample: Id)
    | Ingest(task: Task, fixture: Id, document: Id)
    | Corpus(fixtures: set<Id>)
    | Record(task: Task)

  /** The tasks a plan asks to record. */
  function Recorded(plan: seq<Step>): seq<Task> {
    if plan == [] then [] else
      var last := plan[|plan| - 1];
      Recorded(plan[..|plan| - 1]) + if last.Record? || last.Ingest? then [last.task] else []
  }

  lemma RecordedStep(plan: seq<Step>, i: nat)
    requires i < |plan|
    ensures Recorded(plan[..i + 1]) == Recorded(plan[..i]) + Recorded([plan[i]])
  {
    assert plan[..i + 1][..i] == plan[..i];
  }

  function TasksOf(samples: seq<Sample>): (r: seq<Task>)
    ensures |r| == |samples| && forall i | 0 <= i < |samples| :: r[i] == samples[i].task
  {
    if samples == [] then [] else TasksOf(samples[..|samples| - 1]) + [samples[|samples| - 1].task]
  }
}
