/**
 The foreground supervisor: ordered start, reverse-order stop, restart budgets, and the
 bookkeeping of every process it ever created, under adapter calls that may fail at any time.
 */
module Supervisor {

  import opened ServiceGraph
  import opened Sets
  import opened Wrappers
  import Budget = RestartBudget

  type Pid = nat

  datatype PollResult = PollFailed | StillActive | ExitCode(code: int)

  datatype Created = CreateFailed | CreatedProcess(pid: Pid)

  /** The operating-system calls; each may fail whenever it is called. */
  class Adapter {
    var next: Pid
    ghost var created: set<Pid>
    /** Processes some poll has reported as exited. */
    ghost var observed: set<Pid>
    ghost var closed: set<Pid>
    /** Processes put into the job, let run after that, and found ready after that. */
    ghost var inJob: set<Pid>
    ghost var resumed: set<Pid>
    ghost var ready: set<Pid>
    /** The exit codes polls have reported. */
    ghost var codes: map<Pid, int>
    /** How often each process was asked to terminate. */
    ghost var tries: map<Pid, nat>
    /** Every poll, and what it said. */
    ghost var polls: seq<(Pid, PollResult)>
    ghost var failures: nat
    ghost var failedReleases: nat

    ghost predicate Valid()
      reads this`next, this`created, this`observed, this`closed, this`inJob, this`resumed, this`ready, this`codes
    {
      && (forall p | p in created :: p < next) && closed <= observed == codes.Keys
      && ready <= resumed <= inJob <= created
    }

    ghost function Tries(p: Pid): nat
      reads this`tries
    {
      if p in tries then tries[p] else 0
    }

    /** The process was seen to exit, or did not react to three terminations. */
    ghost predicate Exhausted(p: Pid)
      reads this`observed, this`tries
    {
      p in observed || Tries(p) >= 3
    }

    constructor ()
      ensures Valid() && created == {} && observed == {} && closed == {}
      ensures tries == map[] && failures == 0 && failedReleases == 0
    {
      next := 0;
      created, observed, closed, inJob, resumed, ready, codes := {}, {}, {}, {}, {}, {}, map[];
      tries, polls, failures, failedReleases := map[], [], 0, 0;
    }

    /** Any call of which only the failure matters: logging on, reading the environment, waiting. */
    method Try() returns (ok: bool)
      modifies this`failures
      ensures failures == if ok then old(failures) else old(failures) + 1
    {
      ok := *;
      if !ok { failures := failures + 1; }
    }

    method Assign(p: Pid) returns (ok: bool)
      requires Valid() && p in created && p !in closed
      modifies this`inJob, this`failures
      ensures Valid() && failures == if ok then old(failures) else old(failures) + 1
      ensures inJob == if ok then old(inJob) + {p} else old(inJob)
    {
      ok := Try();
      if ok { inJob := inJob + {p}; }
    }

    /** A process is let run only inside the job. */
    method Resume(p: Pid) returns (ok: bool)
      requires Valid() && p in inJob && p !in closed
      modifies this`resumed, this`failures
      ensures Valid() && failures == if ok then old(failures) else old(failures) + 1
      ensures resumed == if ok then old(resumed) + {p} else old(resumed)
    {
      ok := Try();
      if ok { resumed := resumed + {p}; }
    }

    method AwaitReady(p: Pid) returns (ok: bool)
      requires Valid() && p in resumed && p !in closed
      modifies this`ready, this`failures
      ensures Valid() && failures == if ok then old(failures) else old(failures) + 1
      ensures ready == if ok then old(ready) + {p} else old(ready)
    {
      ok := Try();
      if ok { ready := ready + {p}; }
    }

    method Poll(p: Pid) returns (r: PollResult)
      requires Valid() && p in created && p !in closed
      modifies this`observed, this`codes, this`polls, this`failures
      ensures Valid() && failures >= old(failures) && (r.PollFailed? ==> failures > old(failures))
      ensures observed == if r.ExitCode? then old(observed) + {p} else old(observed)
      ensures codes == if r.ExitCode? then old(codes)[p := r.code] else old(codes)
      ensures polls == old(polls) + [(p, r)]
    {
      var ok := Try();
      if !ok {
        r := PollFailed;
      } else if * {
        r := StillActive;
      } else {
        var code: int := *;
        observed, codes := observed + {p}, codes[p := code];
        r := ExitCode(code);
      }
      polls := polls + [(p, r)];
    }

    method Terminate(p: Pid) returns (ok: bool)
      requires Valid() && p in created && p !in closed
      modifies this`tries, this`failures
      ensures Valid() && tries == old(tries)[p := old(Tries(p)) + 1] && failures >= old(failures)
    {
      tries := tries[p := Tries(p) + 1];
      ok := Try();
    }

    method CreateSuspended() returns (r: Created)
      requires Valid()
      modifies this`next, this`created, this`failures
      ensures Valid() && failures >= old(failures)
      ensures r.CreateFailed? ==> created == old(created) && failures > old(failures)
      ensures r.CreatedProcess? ==> r.pid !in old(created) && created == old(created) + {r.pid}
    {
      var ok := Try();
      if !ok { return CreateFailed; }
      r := CreatedProcess(next);
      created := created + {next};
      next := next + 1;
    }

    /** Closing a process that is already closed, or was never seen to exit, is ruled out here. */
    method Close(p: Pid) returns (ok: bool)
      requires Valid() && p in observed && p !in closed
      modifies this`closed, this`failures
      ensures Valid() && failures == if ok then old(failures) else old(failures) + 1
      ensures closed == if ok then old(closed) + {p} else old(closed)
    {
      ok := Try();
      if ok { closed := closed + {p}; }
    }

    method ReleaseToken() returns (ok: bool)
      modifies this`failedReleases, this`failures
      ensures failedReleases == (if ok then old(failedReleases) else old(failedReleases) + 1)
      ensures failures == if ok then old(failures) else old(failures) + 1
    {
      ok := Try();
      if !ok { failedReleases := failedReleases + 1; }
    }
  }

  class Clock {
    var now: Budget.Time
    /** Pauses between two attempts to end a process that something broke off. */
    ghost var interruptions: nat
    /** All other waits, how long they were to be, and how many of them something broke off. */
    ghost var sleeps: seq<real>
    ghost var broken: nat

    constructor () {
      now, interruptions, sleeps, broken := 0.0, 0, [], 0;
    }

    method Read() returns (t: Budget.Time)
      modifies this`now
      ensures t == now >= old(now)
    {
      var later: real := *;
      if later > now { now := later; }
      t := now;
    }

    /** The wait between two looks at the services, or before a restart; something may break it off. */
    method Sleep(delay: real) returns (ok: bool)
      modifies this`broken, this`sleeps
      ensures sleeps == old(sleeps) + [delay] && broken == if ok then old(broken) else old(broken) + 1
    {
      ok := *;
      sleeps := sleeps + [delay];
      if !ok { broken := broken + 1; }
    }

    /** The pause between two attempts to end a process. */
    method Rest() returns (ok: bool)
      modifies this`interruptions
      ensures interruptions == if ok then old(interruptions) else old(interruptions) + 1
    {
      ok := *;
      if !ok { interruptions := interruptions + 1; }
    }
  }

  /**
   Who answers for a process. `InHand`: the running code itself, while starting, validating or stopping it.
   Nobody answers for a process that is `Leaked`, because its logon token could not be released, or `Dropped`,
   because the pause between two attempts to end it was broken off.
   */
  datatype Owner = InHand | Running(name: Name) | Retained | Closed | Leaked | Dropped

  datatype StartResult = Started(pid: Pid) | StartFailed

  /** How an attempt to end a process came out. */
  datatype Ending = Ended | Kept | CutOff

  datatype StopResult = AllStopped | SomeRetained | NoOrder | StopInterrupted

  datatype ReapResult = NoneLeft | SomeLeft | ReapInterrupted

  datatype Watch = ServiceExited(service: Service, code: int) | WatchRaised | WatchInterrupted | WatchContinues

  datatype Outcome = Returned(code: int) | Raised | StillRunning

  /** How a round ended; `ran` tells an exit of a started service from a failed start. */
  datatype RoundEnd = Over(outcome: Outcome) | Failed(culprit: Name, ran: bool, code: int)

  const CADDY: Name := 0

  predicate NoRepeats(s: seq<Pid>) {
    forall i, j | 0 <= i < j < |s| :: s[i] != s[j]
  }

  /** The attempts of one sweep: all that succeeded, and the one that did not, if any. */
  ghost function Attempts(ordered: seq<Service>, started: nat): seq<(Name, bool)>
    requires started <= |ordered|
  {
    Succeeded(ordered, started) + if started < |ordered| then [(ordered[started].name, false)] else []
  }

  ghost function Succeeded(ordered: seq<Service>, n: nat): seq<(Name, bool)>
    requires n <= |ordered|
  {
    if n == 0 then [] else Succeeded(ordered, n - 1) + [(ordered[n - 1].name, true)]
  }

  function Quarters(n: nat): seq<real> {
    if n == 0 then [] else Quarters(n - 1) + [0.25]
  }

  lemma Regroup<T>(a: seq<T>, b: seq<T>, c: seq<T>)
    ensures (a + b) + c == a + (b + c)
  {
  }

  class Supervisor {
    const services: seq<Service>
    const policy: Budget.Policy
    const adapter: Adapter
    const clock: Clock
    var processes: map<Name, Pid>
    var retained: seq<Pid>
    /** The one owner of every process ever created. */
    ghost var owner: map<Pid, Owner>
    /** The processes nobody answers for any more. */
    ghost var leaked: set<Pid>
    ghost var dropped: set<Pid>
    /** Configuration checks that ended with another exit code than 0, or with none. */
    ghost var flunked: nat
    /** How often a process could not be confirmed dead or closed. */
    ghost var kept: nat
    /** Every start attempted, and whether it succeeded. */
    ghost var starts: seq<(Name, bool)>
    /** Every exit of a service that was noticed while watching, with its code. */
    ghost var exits: seq<(Name, int)>

    ghost function G(): Graph {
      ByName(services)
    }

    ghost predicate ProcessesOwned()
      reads this`processes, this`owner
    {
      && (forall n | n in processes :: processes[n] in owner && owner[processes[n]] == Running(n))
      && (forall p | p in owner && owner[p].Running? :: owner[p].name in processes && processes[owner[p].name] == p)
    }

    ghost predicate RetainedOwned(kept: seq<Pid>)
      reads this`owner
    {
      NoRepeats(kept) && forall p :: p in kept <==> p in owner && owner[p].Retained?
    }

    ghost predicate AdapterAgrees()
      reads this`owner,
        adapter`next, adapter`created, adapter`observed, adapter`closed, adapter`inJob, adapter`resumed, adapter`ready,
        adapter`codes
    {
      && adapter.Valid() && owner.Keys == adapter.created
      && (forall p :: p in adapter.closed <==> p in owner && owner[p].Closed?)
      && forall p | p in owner && (owner[p].Running? || owner[p].Leaked?) :: p in adapter.ready
    }

    /** A process is retained only when three terminations, or closing it after its exit, have failed. */
    ghost predicate GivenUp()
      reads this`owner, adapter`observed, adapter`tries
    {
      forall p | p in owner && owner[p].Retained? :: adapter.Exhausted(p)
    }

    /** Every lost process is accounted for by a token of its own, or by a broken pause of its own. */
    ghost predicate LossesExplained()
      reads this`owner, this`leaked, this`dropped, adapter`failedReleases, clock`interruptions
    {
      && (forall p :: p in leaked <==> p in owner && owner[p].Leaked?) && |leaked| <= adapter.failedReleases
      && (forall p :: p in dropped <==> p in owner && owner[p].Dropped?) && |dropped| <= clock.interruptions
    }

    /** The books balance, and whatever runs has all its dependencies running. */
    ghost predicate Valid()
      reads this`processes, this`retained, this`owner, this`leaked, this`dropped, clock`interruptions,
        adapter`next, adapter`created, adapter`observed, adapter`closed, adapter`inJob, adapter`resumed, adapter`ready,
        adapter`codes, adapter`tries, adapter`failedReleases
    {
      && ProcessesOwned() && RetainedOwned(retained) && AdapterAgrees() && GivenUp() && LossesExplained()
      && processes.Keys <= G().Keys && ServiceGraph.Closed(G(), processes.Keys)
    }

    ghost predicate InHandIs(hand: set<Pid>)
      reads this`owner
    {
      forall p :: p in hand <==> p in owner && owner[p].InHand?
    }

    ghost predicate Steady()
      reads this`processes, this`retained, this`owner, this`leaked, this`dropped, clock`interruptions,
        adapter`next, adapter`created, adapter`observed, adapter`closed, adapter`inJob, adapter`resumed, adapter`ready,
        adapter`codes, adapter`tries, adapter`failedReleases
    {
      Valid() && InHandIs({})
    }

    constructor (services: seq<Service>, policy: Budget.Policy, adapter: Adapter, clock: Clock)
      requires policy.Valid() && adapter.Valid() && adapter.created == {} && adapter.closed == {}
      ensures Steady() && processes == map[] && retained == []
      ensures this.services == services && this.policy == policy && this.adapter == adapter && this.clock == clock
    {
      this.services, this.policy, this.adapter, this.clock := services, policy, adapter, clock;
      processes, retained, owner, leaked, dropped, starts := map[], [], map[], {}, {}, [];
      flunked, kept, exits := 0, 0, [];
    }

    /** What went wrong so far. */
    ghost function Troubles(): nat
      reads this`flunked, adapter`failures
    {
      adapter.failures + flunked
    }

    /** Processes that would not end, and pauses and waits that were broken off. */
    ghost function Setbacks(): nat
      reads this`kept, clock`interruptions, clock`broken
    {
      kept + clock.interruptions + clock.broken
    }

    // ---------- ending one process ----------

    /**
     Up to three rounds of poll, terminate, wait and poll again, with a pause after the first two; the handles are
     closed only after a seen exit. A broken pause ends it at once.
     */
    method TerminateAndClose(p: Pid) returns (r: Ending)
      requires adapter.Valid() && p in adapter.created && p !in adapter.closed
      modifies clock`interruptions,
        adapter`observed, adapter`codes, adapter`polls, adapter`closed, adapter`tries, adapter`failures
      ensures adapter.Valid()
      ensures adapter.closed == if r.Ended? then old(adapter.closed) + {p} else old(adapter.closed)
      ensures old(adapter.Tries(p)) <= adapter.Tries(p) <= old(adapter.Tries(p)) + 3
      ensures forall q | q != p :: adapter.Tries(q) == old(adapter.Tries(q))
      ensures old(adapter.observed) <= adapter.observed && adapter.failures >= old(adapter.failures)
      ensures r.Kept? ==> || (p in adapter.observed && adapter.failures > old(adapter.failures))
                          || adapter.Tries(p) == old(adapter.Tries(p)) + 3
      ensures r.CutOff? ==> old(adapter.Tries(p)) < adapter.Tries(p) < old(adapter.Tries(p)) + 3
      ensures clock.interruptions == if r.CutOff? then old(clock.interruptions) + 1 else old(clock.interruptions)
    {
      var terminated := false;
      for attempt := 0 to 3
        invariant adapter.Valid() && !terminated && adapter.closed == old(adapter.closed)
        invariant adapter.Tries(p) == old(adapter.Tries(p)) + attempt
        invariant forall q | q != p :: adapter.Tries(q) == old(adapter.Tries(q))
        invariant old(adapter.observed) <= adapter.observed && adapter.failures >= old(adapter.failures)
        invariant clock.interruptions == old(clock.interruptions)
      {
        terminated := TryToEnd(p);
        if terminated { break; }
        if attempt < 2 {
          var rested := clock.Rest();
          if !rested { return CutOff; }
        }
      }
      if !terminated { return Kept; }
      var closed := adapter.Close(p);
      return if closed then Ended else Kept;
    }

    /** One attempt; it succeeds exactly with an observed exit. */
    method TryToEnd(p: Pid) returns (terminated: bool)
      requires adapter.Valid() && p in adapter.created && p !in adapter.closed
      modifies adapter`observed, adapter`codes, adapter`polls, adapter`tries, adapter`failures
      ensures adapter.Valid() && adapter.failures >= old(adapter.failures)
      ensures old(adapter.observed) <= adapter.observed && (terminated ==> p in adapter.observed)
      ensures forall q | q != p :: adapter.Tries(q) == old(adapter.Tries(q))
      ensures old(adapter.Tries(p)) <= adapter.Tries(p) <= old(adapter.Tries(p)) + 1
      ensures !terminated ==> adapter.Tries(p) == old(adapter.Tries(p)) + 1
    {
      var before := adapter.Poll(p);
      if before.ExitCode? { return true; }
      var asked := adapter.Terminate(p);
      if !asked { return false; }
      var signalled := adapter.Try();
      if !signalled { return false; }
      var after := adapter.Poll(p);
      return after.ExitCode?;
    }

    function After(r: Ending): Owner {
      match r
      case Ended => Owner.Closed
      case Kept => Retained
      case CutOff => Dropped
    }

    /**
     Ends a process in hand; one that could not be confirmed dead and closed is kept for later, and one whose
     ending was broken off is dropped.
     */
    method CloseOrRetain(p: Pid) returns (r: Ending)
      requires Valid() && InHandIs({p})
      modifies this`retained, this`kept, this`owner, this`dropped, clock`interruptions,
        adapter`observed, adapter`codes, adapter`polls, adapter`closed, adapter`tries, adapter`failures
      ensures Steady() && adapter.failures >= old(adapter.failures)
      ensures owner == old(owner)[p := After(r)]
      ensures retained == if r.Kept? then old(retained) + [p] else old(retained)
      ensures dropped == if r.CutOff? then old(dropped) + {p} else old(dropped)
      ensures Setbacks() == if r.Ended? then old(Setbacks()) else old(Setbacks()) + 1
    {
      hide Valid, InHandIs;
      r := End(p);
      if r.Kept? {
        Retain(p);
      } else if r.CutOff? {
        Drop(p);
      }
    }

    /** A process in hand, ended if possible. */
    method End(p: Pid) returns (r: Ending)
      requires Valid() && InHandIs({p})
      modifies this`owner, clock`interruptions,
        adapter`observed, adapter`codes, adapter`polls, adapter`closed, adapter`tries, adapter`failures
      ensures Valid() && InHandIs(if r.Ended? then {} else {p}) && adapter.failures >= old(adapter.failures)
      ensures owner == if r.Ended? then old(owner)[p := Owner.Closed] else old(owner)
      ensures r.Kept? ==> adapter.Exhausted(p)
      ensures r.CutOff? ==> |dropped| < clock.interruptions
      ensures clock.interruptions == if r.CutOff? then old(clock.interruptions) + 1 else old(clock.interruptions)
    {
      assert p in owner && owner[p].InHand?;
      r := TerminateAndClose(p);
      assert GivenUp() && LossesExplained();
      if r.Ended? { owner := owner[p := Owner.Closed]; }
    }

    ghost method Drop(p: Pid)
      requires Valid() && InHandIs({p}) && |dropped| < clock.interruptions
      modifies this`owner, this`dropped
      ensures Steady() && owner == old(owner)[p := Dropped] && dropped == old(dropped) + {p}
    {
      assert p in owner;
      owner, dropped := owner[p := Dropped], dropped + {p};
    }

    method Retain(p: Pid)
      requires Valid() && InHandIs({p}) && adapter.Exhausted(p)
      modifies this`retained, this`kept, this`owner
      ensures Valid() && InHandIs({})
      ensures owner == old(owner)[p := Retained] && retained == old(retained) + [p] && kept == old(kept) + 1
    {
      assert p in owner;
      kept := kept + 1;
      retained := retained + [p];
      owner := owner[p := Retained];
    }

    // ---------- starting ----------

    /** What a start leaves in hand: the child it started, which is ready, or nothing. */
    ghost predicate Holding(r: StartResult)
      reads this`processes, this`retained, this`owner, this`leaked, this`dropped, clock`interruptions,
        adapter`next, adapter`created, adapter`observed, adapter`closed, adapter`inJob, adapter`resumed, adapter`ready,
        adapter`codes, adapter`tries, adapter`failedReleases
    {
      && Valid() && InHandIs(if r.Started? then {r.pid} else {})
      && (r.Started? ==> r.pid in adapter.ready)
    }

    method Create() returns (r: Created)
      requires Steady()
      modifies this`owner, adapter`next, adapter`created, adapter`failures
      ensures Valid() && adapter.failures >= old(adapter.failures)
      ensures r.CreateFailed? ==> owner == old(owner) && InHandIs({}) && adapter.failures > old(adapter.failures)
      ensures r.CreatedProcess? ==> r.pid !in old(owner) && owner == old(owner)[r.pid := InHand] && InHandIs({r.pid})
    {
      r := adapter.CreateSuspended();
      if r.CreatedProcess? {
        owner := owner[r.pid := InHand];
      }
    }

    /** Assign, resume, wait at most 30 seconds, and demand exit code 0. */
    method RunValidation(p: Pid) returns (passed: bool)
      requires adapter.Valid() && p in adapter.created && p !in adapter.closed
      modifies this`flunked,
        adapter`inJob, adapter`resumed, adapter`observed, adapter`codes, adapter`polls, adapter`failures
      ensures adapter.Valid() && old(adapter.observed) <= adapter.observed
      ensures if passed then Troubles() >= old(Troubles()) else Troubles() > old(Troubles())
      ensures passed ==> p in adapter.resumed && p in adapter.codes && adapter.codes[p] == 0
    {
      passed := adapter.Assign(p);
      if passed { passed := adapter.Resume(p); }
      if passed { passed := adapter.Try(); }
      if passed {
        var code := adapter.Poll(p);
        passed := code == ExitCode(0);
        if !passed { flunked := flunked + 1; }
      }
    }

    method CloseFinished(p: Pid) returns (ok: bool)
      requires Valid() && InHandIs({p}) && p in adapter.observed
      modifies this`owner, adapter`closed, adapter`failures
      ensures Valid() && InHandIs(if ok then {} else {p})
      ensures owner == if ok then old(owner)[p := Owner.Closed] else old(owner)
      ensures adapter.failures == if ok then old(adapter.failures) else old(adapter.failures) + 1
    {
      assert p in owner;
      ok := adapter.Close(p);
      if ok { owner := owner[p := Owner.Closed]; }
    }

    /** Some process that was not there before has run to exit code 0 and been closed. */
    twostate predicate ValidationPassed()
      reads this`owner, adapter`codes
    {
      exists v :: v !in old(owner) && v in owner && owner[v].Closed? && v in adapter.codes && adapter.codes[v] == 0
    }

    method ValidateAndClose(p: Pid) returns (ok: bool)
      requires Valid() && InHandIs({p})
      modifies this`owner, this`flunked,
        adapter`inJob, adapter`resumed, adapter`observed, adapter`codes, adapter`polls, adapter`closed, adapter`failures
      ensures Valid() && InHandIs(if ok then {} else {p})
      ensures owner == if ok then old(owner)[p := Owner.Closed] else old(owner)
      ensures ok ==> p in adapter.codes && adapter.codes[p] == 0
      ensures if ok then Troubles() >= old(Troubles()) else Troubles() > old(Troubles())
    {
      assert p in owner;
      ok := RunValidation(p);
      assert Valid();
      if ok { ok := CloseFinished(p); }
    }

    method FinishValidation(p: Pid) returns (ok: bool)
      requires Valid() && InHandIs({p})
      modifies this`retained, this`kept, this`owner, this`dropped, this`flunked, clock`interruptions,
        adapter`inJob, adapter`resumed, adapter`observed, adapter`codes, adapter`polls, adapter`closed, adapter`tries,
        adapter`failures
      ensures Steady() && owner.Keys == old(owner.Keys)
      ensures ok ==> retained == old(retained) && owner[p].Closed? && p in adapter.codes && adapter.codes[p] == 0
      ensures if ok then Troubles() >= old(Troubles()) else Troubles() > old(Troubles())
      ensures old(dropped) <= dropped
      ensures Setbacks() >= old(Setbacks())
    {
      assert p in owner;
      ok := ValidateAndClose(p);
      if !ok { var cleaned := CloseOrRetain(p); }
    }

    /** Runs the proxy's own configuration check as a short-lived child. */
    method ValidateCaddy() returns (ok: bool)
      requires Steady()
      modifies this`retained, this`kept, this`owner, this`dropped, this`flunked, clock`interruptions, adapter
      ensures Steady()
      ensures ok ==> retained == old(retained) && ValidationPassed()
      ensures adapter.failedReleases == old(adapter.failedReleases) && old(owner.Keys) <= owner.Keys
      ensures if ok then Troubles() >= old(Troubles()) else Troubles() > old(Troubles())
      ensures old(dropped) <= dropped
      ensures Setbacks() >= old(Setbacks())
    {
      var pinned := adapter.Try();
      if !pinned { return false; }
      var r := Create();
      if r.CreateFailed? { return false; }
      ok := FinishValidation(r.pid);
    }

    /** Assign, resume, and wait until the child is ready. */
    method BringUp(p: Pid) returns (ready: bool)
      requires adapter.Valid() && p in adapter.created && p !in adapter.closed
      modifies adapter`inJob, adapter`resumed, adapter`ready, adapter`failures
      ensures adapter.Valid() && old(adapter.ready) <= adapter.ready
      ensures ready ==> p in adapter.ready
      ensures adapter.failures == if ready then old(adapter.failures) else old(adapter.failures) + 1
    {
      ready := adapter.Assign(p);
      if ready { ready := adapter.Resume(p); }
      if ready { ready := adapter.AwaitReady(p); }
    }

    /** Creates the child and hands it over ready; one that does not become ready is ended or kept. */
    method Launch() returns (r: StartResult)
      requires Steady()
      modifies this`retained, this`kept, this`owner, this`dropped, clock`interruptions, adapter
      ensures Holding(r) && adapter.failures >= old(adapter.failures)
      ensures adapter.failedReleases == old(adapter.failedReleases)
      ensures r.StartFailed? ==> adapter.failures > old(adapter.failures)
      ensures r.Started? ==> r.pid !in old(owner) && owner == old(owner)[r.pid := InHand]
                             && adapter.codes == old(adapter.codes)
      ensures old(dropped) <= dropped
      ensures Setbacks() >= old(Setbacks())
    {
      var c := Create();
      if c.CreateFailed? { return StartFailed; }
      var ready := BringUp(c.pid);
      if ready { return Started(c.pid); }
      var cleaned := CloseOrRetain(c.pid);
      return StartFailed;
    }

    /** A child is handed over only ready; the proxy's, only after its configuration was found valid. */
    method StartWithToken(service: Service) returns (r: StartResult)
      requires Steady()
      modifies this`retained, this`kept, this`owner, this`dropped, this`flunked, clock`interruptions, adapter
      ensures Holding(r) && Troubles() >= old(Troubles()) && (r.StartFailed? ==> Troubles() > old(Troubles()))
      ensures r.Started? && service.name == CADDY ==> ValidationPassed()
      ensures adapter.failedReleases == old(adapter.failedReleases) && (r.Started? ==> r.pid !in old(owner))
      ensures old(dropped) <= dropped
      ensures Setbacks() >= old(Setbacks())
    {
      if service.name == CADDY {
        var valid := ValidateCaddy();
        if !valid { return StartFailed; }
      }
      r := Launch();
    }

    /** When the token cannot be released after a child became ready, nobody is left to answer for the child. */
    ghost method Settle(r: StartResult, released: bool)
      requires Holding(r) && (r.Started? && !released ==> |leaked| < adapter.failedReleases)
      modifies this`owner, this`leaked
      ensures Holding(if released then r else StartFailed)
      ensures r.Started? && released ==> owner == old(owner)
      ensures leaked == old(leaked) + if r.Started? && !released then {r.pid} else {}
    {
      hide Valid, InHandIs;
      if r.Started? && !released { Lose(r.pid); }
    }

    ghost method Lose(p: Pid)
      requires Valid() && InHandIs({p}) && p in adapter.ready && |leaked| < adapter.failedReleases
      modifies this`owner, this`leaked
      ensures Valid() && InHandIs({}) && leaked == old(leaked) + {p}
    {
      assert p in owner;
      owner, leaked := owner[p := Leaked], leaked + {p};
    }

    /** The child is lost exactly if it was ready and its token could not be released. */
    method ReleaseToken(r: StartResult) returns (r': StartResult)
      requires Holding(r)
      modifies this`owner, this`leaked, adapter`failedReleases, adapter`failures
      ensures Holding(r') && (r' == r || r'.StartFailed?) && (r'.Started? ==> owner == old(owner))
      ensures if r' == r then adapter.failures >= old(adapter.failures) else adapter.failures > old(adapter.failures)
      ensures adapter.failedReleases >= old(adapter.failedReleases)
      ensures r.Started? ==> (r'.StartFailed? <==> adapter.failedReleases > old(adapter.failedReleases))
      ensures leaked == old(leaked) + if r.Started? && r'.StartFailed? then {r.pid} else {}
    {
      var released := adapter.ReleaseToken();
      Settle(r, released);
      r' := if released then r else StartFailed;
    }

    /** `child` is what stood ready before the token was released. */
    method Start(service: Service) returns (r: StartResult, ghost child: StartResult)
      requires Steady() && service.name !in processes
      requires forall d | d in service.dependencies && d in G() :: d in processes
      modifies this`retained, this`kept, this`owner, this`leaked, this`dropped, this`starts, this`flunked,
        clock`interruptions, adapter
      ensures Holding(r) && starts == old(starts) + [(service.name, r.Started?)]
      ensures r.Started? && service.name == CADDY ==> ValidationPassed()
      ensures Troubles() >= old(Troubles()) && (r.StartFailed? ==> Troubles() > old(Troubles()))
      ensures child.Started? ==> child.pid in adapter.ready && child.pid !in old(owner)
      ensures r == if adapter.failedReleases > old(adapter.failedReleases) then StartFailed else child
      ensures leaked == old(leaked)
        + if child.Started? && adapter.failedReleases > old(adapter.failedReleases) then {child.pid} else {}
      ensures old(dropped) <= dropped
      ensures Setbacks() >= old(Setbacks())
    {
      hide Valid, InHandIs;
      r, child := StartFailed, StartFailed;
      var loggedOn := adapter.Try();
      if loggedOn {
        r := StartWithToken(service);
        child := r;
        r := ReleaseToken(r);
      }
      starts := starts + [(service.name, r.Started?)];
    }

    ghost predicate StartOrder(ordered: seq<Service>) {
      Order(G()) == Ordered(ordered)
    }

    method Admit(service: Service, pid: Pid)
      requires Valid() && InHandIs({pid}) && service.name !in processes && pid in adapter.ready
      requires service.name in G() && G()[service.name] == service
      requires forall d | d in service.dependencies && d in G() :: d in processes
      modifies this`processes, this`owner
      ensures Steady() && processes == old(processes)[service.name := pid]
    {
      assert pid in owner;
      processes := processes[service.name := pid];
      owner := owner[pid := Running(service.name)];
    }

    method StartNext(ordered: seq<Service>, i: nat) returns (ok: bool)
      requires Steady() && StartOrder(ordered) && i < |ordered|
      requires processes.Keys == NamesOf(ordered[..i])
      modifies this`processes, this`retained, this`kept, this`owner, this`leaked, this`dropped, this`starts,
        this`flunked, clock`interruptions, adapter
      ensures Steady()
      ensures starts == old(starts) + [(ordered[i].name, ok)]
      ensures Troubles() >= old(Troubles()) && (!ok ==> Troubles() > old(Troubles()))
      ensures processes.Keys == NamesOf(if ok then ordered[..i + 1] else ordered[..i])
      ensures old(dropped) <= dropped
      ensures Setbacks() >= old(Setbacks())
    {
      hide Valid, InHandIs;
      ByNameKeyed(services);
      NextIsStartable(G(), i);
      ghost var child;
      var r;
      r, child := Start(ordered[i]);
      ok := r.Started?;
      if ok { Admit(ordered[i], r.pid); }
    }

    /** A sweep that began with `before` on the record has started the first `n` services. */
    ghost predicate Swept(ordered: seq<Service>, n: nat, before: seq<(Name, bool)>)
      requires n <= |ordered|
      reads this`processes, this`retained, this`owner, this`leaked, this`dropped, this`starts,
        clock`interruptions,
        adapter`next, adapter`created, adapter`observed, adapter`closed, adapter`inJob, adapter`resumed, adapter`ready,
        adapter`codes, adapter`tries, adapter`failedReleases
    {
      Steady() && processes.Keys == NamesOf(ordered[..n]) && starts == before + Succeeded(ordered, n)
    }

    method StartStep(ordered: seq<Service>, i: nat, ghost before: seq<(Name, bool)>) returns (ok: bool)
      requires StartOrder(ordered) && i < |ordered| && Swept(ordered, i, before)
      modifies this`processes, this`retained, this`kept, this`owner, this`leaked, this`dropped, this`starts,
        this`flunked, clock`interruptions, adapter
      ensures ok ==> Swept(ordered, i + 1, before)
      ensures Troubles() >= old(Troubles()) && (!ok ==> Troubles() > old(Troubles()))
      ensures !ok ==> Steady() && processes.Keys == NamesOf(ordered[..i]) && starts == before + Attempts(ordered, i)
      ensures old(dropped) <= dropped
      ensures Setbacks() >= old(Setbacks())
    {
      ok := StartNext(ordered, i);
      Regroup(before, Succeeded(ordered, i), [(ordered[i].name, ok)]);
    }

    /** Starts every service after its dependencies, up to the first that fails. */
    method StartAll(ordered: seq<Service>) returns (started: nat)
      requires Steady() && processes == map[] && StartOrder(ordered)
      modifies this`processes, this`retained, this`kept, this`owner, this`leaked, this`dropped, this`starts,
        this`flunked, clock`interruptions, adapter
      ensures Steady()
      ensures started <= |ordered| && processes.Keys == NamesOf(ordered[..started])
      ensures starts == old(starts) + Attempts(ordered, started)
      ensures Troubles() >= old(Troubles()) && (started < |ordered| ==> Troubles() > old(Troubles()))
      ensures old(dropped) <= dropped
      ensures Setbacks() >= old(Setbacks())
    {
      hide Valid, InHandIs;
      started := 0;
      while started < |ordered|
        invariant started <= |ordered| && Swept(ordered, started, old(starts)) && Troubles() >= old(Troubles())
        invariant old(dropped) <= dropped && Setbacks() >= old(Setbacks())
      {
        var ok := StartStep(ordered, started, old(starts));
        if !ok { return; }
        started := started + 1;
      }
    }

    // ---------- stopping ----------

    /** Stops one service on which nothing that still runs depends. */
    method StopOne(name: Name) returns (r: Ending)
      requires Steady() && name in processes
      requires forall m | m in processes :: name !in G()[m].dependencies
      modifies this`processes, this`retained, this`kept, this`owner, this`dropped, clock`interruptions,
        adapter`observed, adapter`codes, adapter`polls, adapter`closed, adapter`tries, adapter`failures
      ensures Steady() && processes == old(processes) - {name}
      ensures retained == if r.Kept? then old(retained) + [old(processes[name])] else old(retained)
      ensures dropped == if r.CutOff? then old(dropped) + {old(processes[name])} else old(dropped)
      ensures r.CutOff? ==> old(processes[name]) !in old(dropped)
      ensures Troubles() >= old(Troubles()) && Setbacks() == old(Setbacks()) + if r.Ended? then 0 else 1
    {
      hide Valid, InHandIs;
      var p := TakeOut(name);
      r := CloseOrRetain(p);
    }

    /** Only when nothing that runs depends on it may a process be taken in hand. */
    method TakeOut(name: Name) returns (p: Pid)
      requires Steady() && name in processes
      requires forall m | m in processes :: name !in G()[m].dependencies
      modifies this`processes, this`owner
      ensures Valid() && InHandIs({p}) && p == old(processes[name]) && processes == old(processes) - {name}
      ensures p !in dropped
    {
      p := processes[name];
      assert p in owner;
      processes := processes - {name};
      owner := owner[p := InHand];
    }

    method StopNext(ordered: seq<Service>, k: nat) returns (r: Ending)
      requires Steady() && StartOrder(ordered) && k < |ordered|
      requires processes.Keys <= NamesOf(ordered[..k + 1])
      modifies this`processes, this`retained, this`kept, this`owner, this`dropped, clock`interruptions,
        adapter`observed, adapter`codes, adapter`polls, adapter`closed, adapter`tries, adapter`failures
      ensures Steady()
      ensures processes == old(processes) - {ordered[k].name} && processes.Keys <= NamesOf(ordered[..k])
      ensures |retained| == if r.Kept? then |old(retained)| + 1 else |old(retained)|
      ensures !r.Kept? ==> retained == old(retained)
      ensures r.CutOff? ==> ordered[k].name in old(processes) && |dropped| == |old(dropped)| + 1
      ensures !r.CutOff? ==> dropped == old(dropped)
      ensures old(dropped) <= dropped
      ensures Troubles() >= old(Troubles()) && Setbacks() == old(Setbacks()) + if r.Ended? then 0 else 1
    {
      ByNameKeyed(services);
      var name := ordered[k].name;
      NobodyDependsOnLast(G(), k, processes.Keys);
      if name !in processes {
        assert processes - {name} == processes;
        return Ended;
      }
      r := StopOne(name);
    }

    /** The same processes under the same names, at most. */
    predicate Within(some: map<Name, Pid>, all: map<Name, Pid>) {
      forall n | n in some :: n in all && some[n] == all[n]
    }

    /** The state of the cascade: how many were kept and dropped since it began. */
    twostate predicate Stopping(r: StopResult)
      reads this`processes, this`retained, this`dropped
    {
      && !r.NoOrder? && Within(processes, old(processes)) && old(dropped) <= dropped
      && (r.AllStopped? ==> retained == old(retained)) && (r.SomeRetained? ==> |retained| > |old(retained)|)
      && |retained| >= |old(retained)|
      && if r.StopInterrupted? then |dropped| == |old(dropped)| + 1 && processes.Keys < old(processes.Keys)
         else dropped == old(dropped)
    }

    /**
     Stops what runs, dependents before dependencies. A broken pause drops the process at hand and leaves the
     rest running.
     */
    method StopCascade() returns (r: StopResult)
      requires Steady()
      modifies this`processes, this`retained, this`kept, this`owner, this`dropped, clock`interruptions,
        adapter`observed, adapter`codes, adapter`polls, adapter`closed, adapter`tries, adapter`failures
      ensures Steady()
      ensures r.NoOrder? <==> HasCycle(G())
      ensures r.NoOrder? ==> processes == old(processes) && retained == old(retained) && dropped == old(dropped)
      ensures !r.NoOrder? ==> Stopping(r) && (!r.StopInterrupted? ==> processes == map[])
      ensures old(dropped) <= dropped
      ensures Troubles() >= old(Troubles()) && Setbacks() >= old(Setbacks())
      ensures r.SomeRetained? || r.StopInterrupted? ==> Setbacks() > old(Setbacks())
    {
      var order := OrderedServices(services);
      CyclicExactlyWithCycle(G());
      if order.Cyclic? { return NoOrder; }
      ByNameKeyed(services);
      AllAreListed(G());
      r := StopAll(order.services);
    }

    /** The loop over the services in reverse order. */
    method StopAll(ordered: seq<Service>) returns (r: StopResult)
      requires Steady() && StartOrder(ordered) && processes.Keys <= NamesOf(ordered)
      modifies this`processes, this`retained, this`kept, this`owner, this`dropped, clock`interruptions,
        adapter`observed, adapter`codes, adapter`polls, adapter`closed, adapter`tries, adapter`failures
      ensures Steady() && Stopping(r) && (!r.StopInterrupted? ==> processes == map[])
      ensures old(dropped) <= dropped
      ensures Troubles() >= old(Troubles()) && Setbacks() >= old(Setbacks())
      ensures r.SomeRetained? || r.StopInterrupted? ==> Setbacks() > old(Setbacks())
    {
      hide Steady, StartOrder;
      var k := |ordered|;
      assert ordered[..k] == ordered;
      r := AllStopped;
      while k > 0
        invariant 0 <= k <= |ordered|
        invariant Steady() && Stopping(r) && !r.StopInterrupted?
        invariant processes.Keys <= NamesOf(ordered[..k])
        invariant Troubles() >= old(Troubles()) && Setbacks() >= old(Setbacks())
        invariant r.SomeRetained? ==> Setbacks() > old(Setbacks())
      {
        k := k - 1;
        var one := StopNext(ordered, k);
        if one.CutOff? { return StopInterrupted; }
        if one.Kept? { r := SomeRetained; }
      }
      assert processes.Keys == {};
    }

    /** Everything that holds between two steps of the sweep, whatever is on the list. */
    ghost predicate Books()
      reads this`processes, this`owner, this`leaked, this`dropped, clock`interruptions,
        adapter`next, adapter`created, adapter`observed, adapter`closed, adapter`inJob, adapter`resumed, adapter`ready,
        adapter`codes, adapter`tries, adapter`failedReleases
    {
      ProcessesOwned() && AdapterAgrees() && GivenUp() && LossesExplained() && InHandIs({})
    }

    /** The state between two steps of the sweep; `kept` is the list once the sweep is done so far. */
    ghost predicate Sweeping(kept: seq<Pid>)
      reads this`processes, this`owner, this`leaked, this`dropped, clock`interruptions,
        adapter`next, adapter`created, adapter`observed, adapter`closed, adapter`inJob, adapter`resumed, adapter`ready,
        adapter`codes, adapter`tries, adapter`failedReleases
    {
      Books() && RetainedOwned(kept)
    }

    /** Three more terminations than `before`, or closing it failed although its exit was seen. */
    ghost predicate Retried(p: Pid, before: nat)
      reads adapter`observed, adapter`tries
    {
      p in adapter.observed || adapter.Tries(p) >= before + 3
    }

    method Retry(p: Pid) returns (r: Ending)
      requires Books() && p in owner && owner[p].Retained?
      modifies this`owner, clock`interruptions,
        adapter`observed, adapter`codes, adapter`polls, adapter`closed, adapter`tries, adapter`failures
      ensures Books() && owner == if r.Ended? then old(owner)[p := Owner.Closed] else old(owner)
      ensures r.Kept? ==> Retried(p, old(adapter.Tries(p)))
      ensures clock.interruptions == if r.CutOff? then old(clock.interruptions) + 1 else old(clock.interruptions)
      ensures old(adapter.observed) <= adapter.observed && forall q :: old(adapter.Tries(q)) <= adapter.Tries(q)
      ensures adapter.failures >= old(adapter.failures)
    {
      r := TerminateAndClose(p);
      if r.Ended? { owner := owner[p := Owner.Closed]; }
    }

    method ReapOne(still: seq<Pid>, p: Pid, ghost after: seq<Pid>) returns (r: Ending, still': seq<Pid>)
      requires Sweeping(still + ([p] + after))
      modifies this`owner, clock`interruptions,
        adapter`observed, adapter`codes, adapter`polls, adapter`closed, adapter`tries, adapter`failures
      ensures if r.CutOff? then Sweeping(still + ([p] + after)) && owner == old(owner) else Sweeping(still' + after)
      ensures owner == if r.Ended? then old(owner)[p := Owner.Closed] else old(owner)
      ensures r.Ended? ==> still' == still
      ensures r.Kept? ==> still' == still + [p] && Retried(p, old(adapter.Tries(p)))
      ensures clock.interruptions == if r.CutOff? then old(clock.interruptions) + 1 else old(clock.interruptions)
      ensures old(adapter.observed) <= adapter.observed && forall q :: old(adapter.Tries(q)) <= adapter.Tries(q)
      ensures adapter.failures >= old(adapter.failures)
    {
      hide Books;
      assert p in still + ([p] + after);
      r := Retry(p);
      still' := still;
      match r
      case Ended =>
        DropOne(still, p, after);
      case Kept =>
        assert still + ([p] + after) == (still + [p]) + after;
        still' := still + [p];
      case CutOff =>
    }

    ghost function Before(tries: map<Pid, nat>, p: Pid): nat {
      if p in tries then tries[p] else 0
    }

    /** Everything on the list is retained, or has been closed since the list was made. */
    ghost predicate ListCovers(list: seq<Pid>)
      reads this`owner
    {
      && NoRepeats(list) && (forall p | p in list :: p in owner && (owner[p].Retained? || owner[p].Closed?))
      && (forall p | p in owner && owner[p].Retained? :: p in list)
    }

    /** The sweep over `all`, begun after `tries`, has kept `still`, each tried again, and `rest` is to come. */
    ghost predicate Reaping(still: seq<Pid>, rest: seq<Pid>, all: seq<Pid>, tries: map<Pid, nat>)
      reads this`processes, this`owner, this`leaked, this`dropped, clock`interruptions,
        adapter`next, adapter`created, adapter`observed, adapter`closed, adapter`inJob, adapter`resumed, adapter`ready,
        adapter`codes, adapter`tries, adapter`failedReleases
    {
      && Sweeping(still + rest) && ListCovers(all)
      && (forall p | p in still :: p in all && Retried(p, Before(tries, p)))
      && forall q :: Before(tries, q) <= adapter.Tries(q)
    }

    method ReapStep(still: seq<Pid>, all: seq<Pid>, i: nat, ghost tries: map<Pid, nat>)
      returns (r: Ending, still': seq<Pid>)
      requires i < |all| && Reaping(still, all[i..], all, tries)
      modifies this`owner, clock`interruptions,
        adapter`observed, adapter`codes, adapter`polls, adapter`closed, adapter`tries, adapter`failures
      ensures if r.CutOff? then Reaping(still, all[i..], all, tries) else Reaping(still', all[i + 1..], all, tries)
      ensures clock.interruptions == if r.CutOff? then old(clock.interruptions) + 1 else old(clock.interruptions)
      ensures adapter.failures >= old(adapter.failures)
    {
      hide Books;
      assert all[i..] == [all[i]] + all[i + 1..];
      assert all[i] in still + all[i..] by { assert (still + all[i..])[|still|] == all[i]; }
      r, still' := ReapOne(still, all[i], all[i + 1..]);
    }

    /** What still holds when the last sweep was broken off: its list may name processes that were closed since. */
    ghost predicate Left()
      reads this`processes, this`retained, this`owner, this`leaked, this`dropped, clock`interruptions,
        adapter`next, adapter`created, adapter`observed, adapter`closed, adapter`inJob, adapter`resumed, adapter`ready,
        adapter`codes, adapter`tries, adapter`failedReleases
    {
      && Books() && ListCovers(retained)
      && processes.Keys <= G().Keys && ServiceGraph.Closed(G(), processes.Keys)
    }

    lemma SweptIsSteady()
      requires Sweeping(retained) && processes.Keys <= G().Keys && ServiceGraph.Closed(G(), processes.Keys)
      ensures Steady()
    {
    }

    /** One more attempt at every process that could not be confirmed dead. */
    method ReapRetained() returns (r: ReapResult)
      requires Steady()
      modifies this`retained, this`owner, clock`interruptions,
        adapter`observed, adapter`codes, adapter`polls, adapter`closed, adapter`tries, adapter`failures
      ensures Left() && (!r.ReapInterrupted? ==> Steady() && (r.NoneLeft? <==> retained == []))
      ensures !r.ReapInterrupted? ==>
        forall p | p in retained :: p in old(retained) && Retried(p, Before(old(adapter.tries), p))
      ensures r.ReapInterrupted? ==> retained == old(retained) && retained != []
      ensures clock.interruptions ==
        if r.ReapInterrupted? then old(clock.interruptions) + 1 else old(clock.interruptions)
      ensures adapter.failures >= old(adapter.failures)
    {
      assert Sweeping(retained) && ListCovers(retained);
      hide Books;
      var still: seq<Pid> := [];
      assert still + retained[0..] == retained;
      for i := 0 to |retained|
        invariant retained == old(retained) && Reaping(still, retained[i..], retained, old(adapter.tries))
        invariant clock.interruptions == old(clock.interruptions) && adapter.failures >= old(adapter.failures)
      {
        var one;
        one, still := ReapStep(still, retained, i, old(adapter.tries));
        if one.CutOff? { return ReapInterrupted; }
      }
      assert still + retained[|retained|..] == still;
      retained := still;
      SweptIsSteady();
      return if still == [] then NoneLeft else SomeLeft;
    }

    // ---------- one run ----------

    ghost predicate HasExited(name: Name, code: int)
      reads this`processes, adapter`codes
    {
      name in processes && processes[name] in adapter.codes && adapter.codes[processes[name]] == code
    }

    method PollOne(name: Name) returns (r: PollResult)
      requires Steady() && name in processes
      modifies adapter`observed, adapter`codes, adapter`polls, adapter`failures
      ensures Steady() && adapter.failures >= old(adapter.failures)
      ensures r.PollFailed? ==> adapter.failures > old(adapter.failures)
      ensures r.ExitCode? ==> HasExited(name, r.code)
      ensures adapter.polls == old(adapter.polls) + [(processes[name], r)]
    {
      assert processes[name] in owner;
      r := adapter.Poll(processes[name]);
    }

    /** The first `n` services, polled in turn and found active. */
    ghost function Active(ordered: seq<Service>, n: nat): seq<(Pid, PollResult)>
      requires n <= |ordered| && NamesOf(ordered) <= processes.Keys
      reads this`processes
    {
      if n == 0 then []
      else
        assert ordered[n - 1].name in NamesOf(ordered);
        Active(ordered, n - 1) + [(processes[ordered[n - 1].name], StillActive)]
    }

    /** What the last poll of a look said that ended it, if any. */
    ghost function Final(ordered: seq<Service>, n: nat, w: Watch): seq<(Pid, PollResult)>
      requires n <= |ordered| && NamesOf(ordered) <= processes.Keys
      reads this`processes
    {
      if n == |ordered| then []
      else
        assert ordered[n].name in NamesOf(ordered);
        var p := processes[ordered[n].name];
        [(p, if w.ServiceExited? then ExitCode(w.code) else PollFailed)]
    }

    /**
     One look at every service in turn, up to the first that has exited or could not be polled: the `n` before it, and
     all if there is none, were polled and found active.
     */
    method PollAll(ordered: seq<Service>) returns (w: Watch, ghost n: nat)
      requires Steady() && processes.Keys == NamesOf(ordered)
      modifies adapter`observed, adapter`codes, adapter`polls, adapter`failures
      ensures Steady() && adapter.failures >= old(adapter.failures) && !w.WatchInterrupted?
      ensures w.ServiceExited? ==> w.service in ordered && HasExited(w.service.name, w.code)
      ensures w.WatchRaised? ==> adapter.failures > old(adapter.failures)
      ensures n <= |ordered| && (w.WatchContinues? <==> n == |ordered|)
      ensures w.ServiceExited? ==> w.service == ordered[n]
      ensures adapter.polls == old(adapter.polls) + Active(ordered, n) + Final(ordered, n, w)
    {
      hide Valid, InHandIs;
      n := 0;
      for i := 0 to |ordered|
        invariant Steady() && adapter.failures >= old(adapter.failures)
        invariant n == i && adapter.polls == old(adapter.polls) + Active(ordered, i)
      {
        assert ordered[i].name in processes;
        var r := PollOne(ordered[i].name);
        match r
        case PollFailed => return WatchRaised, i;
        case ExitCode(code) => return ServiceExited(ordered[i], code), i;
        case StillActive =>
          Regroup(old(adapter.polls), Active(ordered, i), [(processes[ordered[i].name], StillActive)]);
          n := i + 1;
      }
      return WatchContinues, n;
    }

    /** That many looks at all services, each of which found them active. */
    ghost function Looks(ordered: seq<Service>, looks: nat): seq<(Pid, PollResult)>
      requires NamesOf(ordered) <= processes.Keys
      reads this`processes
    {
      if looks == 0 then [] else Looks(ordered, looks - 1) + Active(ordered, |ordered|)
    }

    /** Looks at all services, waiting a quarter of a second after each look, until one has exited. */
    method WatchServices(ordered: seq<Service>, fuel: nat) returns (w: Watch, ghost looks: nat, ghost n: nat)
      requires Steady() && processes.Keys == NamesOf(ordered)
      modifies adapter`observed, adapter`codes, adapter`polls, adapter`failures, clock`sleeps, clock`broken
      ensures Steady() && adapter.failures >= old(adapter.failures)
      ensures w.ServiceExited? ==> w.service in ordered && HasExited(w.service.name, w.code)
      ensures w.WatchRaised? ==> adapter.failures > old(adapter.failures)
      ensures clock.broken == if w.WatchInterrupted? then old(clock.broken) + 1 else old(clock.broken)
      ensures clock.sleeps == old(clock.sleeps) + Quarters(looks)
      ensures n <= |ordered| && (w.WatchContinues? ==> looks == fuel)
      ensures w.ServiceExited? || w.WatchRaised? ==>
                adapter.polls
                == old(adapter.polls) + Looks(ordered, looks) + (Active(ordered, n) + Final(ordered, n, w))
      ensures w.ServiceExited? ==> n < |ordered| && w.service == ordered[n]
      ensures w.WatchContinues? || w.WatchInterrupted? ==>
                adapter.polls == old(adapter.polls) + Looks(ordered, looks)
    {
      hide Valid, InHandIs;
      looks, n := 0, 0;
      for round := 0 to fuel
        invariant Steady() && adapter.failures >= old(adapter.failures) && clock.broken == old(clock.broken)
        invariant looks == round && clock.sleeps == old(clock.sleeps) + Quarters(looks)
        invariant adapter.polls == old(adapter.polls) + Looks(ordered, looks) && n <= |ordered|
      {
        ghost var before := adapter.polls;
        w, n := PollAll(ordered);
        Regroup(before, Active(ordered, n), Final(ordered, n, w));
        if !w.WatchContinues? { return; }
        Regroup(old(adapter.polls), Looks(ordered, looks), Active(ordered, n));
        Regroup(old(clock.sleeps), Quarters(looks), [0.25]);
        var slept := clock.Sleep(0.25);
        looks := looks + 1;
        if !slept { return WatchInterrupted, looks, n; }
      }
      return WatchContinues, looks, n;
    }

    ghost predicate LastStartFailed(name: Name)
      reads this`starts
    {
      starts != [] && starts[|starts| - 1] == (name, false)
    }

    /** The outcome of watching: which service exited, if any. */
    method WatchAll(ordered: seq<Service>, fuel: nat) returns (e: RoundEnd)
      requires Steady() && StartOrder(ordered) && processes.Keys == NamesOf(ordered)
      modifies this`exits, adapter`observed, adapter`codes, adapter`polls, adapter`failures, clock`sleeps, clock`broken
      ensures Steady()
      ensures if e.Failed? then e.ran && e.culprit in G() && HasExited(e.culprit, e.code) else !e.outcome.Returned?
      ensures exits == if e.Failed? then old(exits) + [(e.culprit, e.code)] else old(exits)
      ensures Troubles() >= old(Troubles()) && Setbacks() >= old(Setbacks())
      ensures e == Over(Raised) ==> Troubles() + Setbacks() > old(Troubles() + Setbacks())
    {
      hide Steady;
      ByNameKeyed(services);
      AllAreListed(G());
      var w;
      ghost var looks, n;
      w, looks, n := WatchServices(ordered, fuel);
      match w
      case WatchRaised => return Over(Raised);
      case WatchInterrupted => return Over(Raised);
      case WatchContinues => return Over(StillRunning);
      case ServiceExited(service, code) =>
        assert service.name in NamesOf(ordered);
        exits := exits + [(service.name, code)];
        return Failed(service.name, true, code);
    }

    /** The outcome of start-up, of writing or removing its diagnostic, and of watching: what failed, if anything. */
    method StartAndWatch(ordered: seq<Service>, fuel: nat) returns (e: RoundEnd)
      requires Steady() && processes == map[] && StartOrder(ordered)
      modifies this`processes, this`retained, this`kept, this`owner, this`leaked, this`dropped, this`starts,
        this`exits, this`flunked, clock`interruptions, clock`sleeps, clock`broken, adapter
      ensures Steady()
      ensures if e.Failed? then e.culprit in G() else !e.outcome.Returned?
      ensures e.Failed? ==> if e.ran then HasExited(e.culprit, e.code) else LastStartFailed(e.culprit)
      ensures e.Failed? && !e.ran ==> Troubles() > old(Troubles())
      ensures old(dropped) <= dropped
      ensures Troubles() >= old(Troubles()) && Setbacks() >= old(Setbacks())
      ensures e == Over(Raised) || (e.Failed? && !e.ran) ==> Troubles() + Setbacks() > old(Troubles() + Setbacks())
      ensures e == Over(StillRunning) ==> processes.Keys == G().Keys
      ensures exits == if e.Failed? && e.ran then old(exits) + [(e.culprit, e.code)] else old(exits)
    {
      hide *;
      var failed := StartUp(ordered);
      var noted := Note();
      if !noted { return Over(Raised); }
      if failed.Some? { return Failed(failed.value, false, 0); }
      e := WatchAll(ordered, fuel);
    }

    /** A start-up that fails names the service that could not be started. */
    method StartUp(ordered: seq<Service>) returns (failed: Option<Name>)
      requires Steady() && processes == map[] && StartOrder(ordered)
      modifies this`processes, this`retained, this`kept, this`owner, this`leaked, this`dropped, this`starts,
        this`flunked, clock`interruptions, adapter
      ensures Steady() && old(dropped) <= dropped
      ensures failed.Some? ==> failed.value in G() && LastStartFailed(failed.value) && Troubles() > old(Troubles())
      ensures failed.None? ==> processes.Keys == NamesOf(ordered) == G().Keys
      ensures Troubles() >= old(Troubles()) && Setbacks() >= old(Setbacks())
    {
      hide Steady, Troubles, Setbacks;
      var started := StartAll(ordered);
      ByNameKeyed(services);
      AllAreListed(G());
      if started < |ordered| {
        assert ordered[started].name in NamesOf(ordered);
        return Some(ordered[started].name);
      }
      assert ordered[..started] == ordered;
      return None;
    }

    /** One round of the outer loop, up to the charge: after a failure everything has been stopped. */
    method Round(ordered: seq<Service>, fuel: nat) returns (e: RoundEnd)
      requires Steady() && processes == map[] && StartOrder(ordered)
      modifies this`processes, this`retained, this`kept, this`owner, this`leaked, this`dropped, this`starts,
        this`exits, this`flunked, clock`interruptions, clock`sleeps, clock`broken, adapter
      ensures Steady()
      ensures e.Failed? ==> e.culprit in G() && processes == map[] && (e.ran || LastStartFailed(e.culprit))
      ensures e.Over? ==> !e.outcome.Returned?
      ensures old(dropped) <= dropped
      ensures Troubles() >= old(Troubles()) && Setbacks() >= old(Setbacks())
      ensures e == Over(Raised) || (e.Failed? && !e.ran) ==> Troubles() + Setbacks() > old(Troubles() + Setbacks())
      ensures e == Over(StillRunning) ==> processes.Keys == G().Keys
      ensures old(exits) <= exits && (e.Failed? && e.ran ==> exits == old(exits) + [(e.culprit, e.code)])
    {
      hide Steady;
      CyclicExactlyWithCycle(G());
      e := StartAndWatch(ordered, fuel);
      if e.Failed? {
        var stop := StopCascade();
        if !stop.AllStopped? { e := Over(Raised); }
      }
    }

    /** The ledger is sound and has been charged nothing later than now. */
    ghost predicate InStep(ledger: Budget.Ledger<Name>)
      reads clock`now, ledger, ledger.budgets.Values
    {
      ledger.Valid() && ledger.last <= clock.now
    }

    method Penalize(ledger: Budget.Ledger<Name>, culprit: Name) returns (d: Budget.Decision)
      requires InStep(ledger) && culprit in ledger.budgets.Keys
      modifies clock`now, ledger`restarts, ledger`last, ledger.budgets.Values
      ensures InStep(ledger)
      ensures d.allowed <==>
        Budget.Recently(ledger.policy, Budget.TimesOf(old(ledger.restarts), culprit), clock.now) < ledger.policy.maximum
      ensures ledger.restarts ==
        if d.allowed then old(ledger.restarts) + [Budget.Failure(culprit, clock.now)] else old(ledger.restarts)
      ensures d.allowed ==> ledger.policy.Valid() && d.delay == Budget.Backoff(ledger.policy,
        Budget.Recently(ledger.policy, Budget.TimesOf(old(ledger.restarts), culprit), clock.now))
    {
      var now := clock.Read();
      d := ledger.Charge(culprit, now);
    }

    /** How many restarts the service was granted in the window that ends now. */
    ghost function Spent(ledger: Budget.Ledger<Name>, restarts: seq<Budget.Failure<Name>>, culprit: Name): nat
      reads clock`now, ledger
    {
      Budget.Recently(ledger.policy, Budget.TimesOf(restarts, culprit), clock.now)
    }

    /** The run ends with the code of the service that exited last, whose budget is spent. */
    ghost predicate EndsWith(o: Outcome, ledger: Budget.Ledger<Name>)
      reads this`exits, clock`now, ledger
    {
      o.Returned? ==>
        && exits != []
        && var (culprit, code) := exits[|exits| - 1];
           o.code == (if code == 0 then 1 else code) && Spent(ledger, ledger.restarts, culprit) >= ledger.policy.maximum
    }

    /** The exit that was noticed gives the code, and the service's budget is spent. */
    ghost predicate ExitsFor(o: Outcome, e: RoundEnd, ledger: Budget.Ledger<Name>)
      requires o.Returned?
      reads clock`now, ledger
    {
      && e.Failed? && e.ran && o.code == (if e.code == 0 then 1 else e.code)
      && Spent(ledger, ledger.restarts, e.culprit) >= ledger.policy.maximum
    }

    lemma EndsForExit(o: Outcome, e: RoundEnd, ledger: Budget.Ledger<Name>)
      requires o.Returned? ==> ExitsFor(o, e, ledger)
      requires e.Failed? && e.ran ==> exits != [] && exits[|exits| - 1] == (e.culprit, e.code)
      ensures EndsWith(o, ledger) && (o.Returned? ==> e.Failed? && e.ran && o.code != 0)
    {
    }

    /** Without an exit that was noticed, no run ends with a code. */
    lemma NoExit(o: Outcome, ledger: Budget.Ledger<Name>)
      ensures !o.Returned? ==> EndsWith(o, ledger)
    {
    }

    lemma EndsBecause(o: Outcome, ledger: Budget.Ledger<Name>)
      requires EndsWith(o, ledger) && o.Returned?
      ensures exits != []
      ensures var (culprit, code) := exits[|exits| - 1];
              && o.code == (if code == 0 then 1 else code)
              && Budget.Recently(ledger.policy, Budget.TimesOf(ledger.restarts, culprit), clock.now)
                 >= ledger.policy.maximum
    {
    }

    /**
     Charges the failed service and waits; `o` is the outcome of the run unless there is another round. There is one
     exactly if the budget allows it and the wait, as long as the policy has it, is not broken off.
     */
    method Recover(ledger: Budget.Ledger<Name>, e: RoundEnd) returns (o: Outcome, again: bool)
      requires InStep(ledger)
      requires if e.Failed? then e.culprit in ledger.budgets.Keys else !e.outcome.Returned?
      modifies clock`now, clock`sleeps, clock`broken, ledger`restarts, ledger`last, ledger.budgets.Values
      ensures InStep(ledger)
      ensures again ==> e.Failed? && |ledger.restarts| == |old(ledger.restarts)| + 1
      ensures |ledger.restarts| >= |old(ledger.restarts)|
      ensures o.Returned? ==> ExitsFor(o, e, ledger)
      ensures e.Over? ==> o == e.outcome && !again && ledger.restarts == old(ledger.restarts)
      ensures e.Failed? && Spent(ledger, old(ledger.restarts), e.culprit) < ledger.policy.maximum ==>
                && (again <==> clock.broken == old(clock.broken)) && (!again ==> o.Raised?) && ledger.policy.Valid()
                && clock.sleeps == old(clock.sleeps)
                     + [Budget.Backoff(ledger.policy, Spent(ledger, old(ledger.restarts), e.culprit)) as real]
                && ledger.restarts == old(ledger.restarts) + [Budget.Failure(e.culprit, clock.now)]
      ensures e.Failed? && Spent(ledger, old(ledger.restarts), e.culprit) >= ledger.policy.maximum ==>
                && !again && clock.sleeps == old(clock.sleeps) && ledger.restarts == old(ledger.restarts)
                && o == if !e.ran then Raised else Returned(if e.code == 0 then 1 else e.code)
      ensures Setbacks() >= old(Setbacks())
      ensures o.Raised? && !again ==> e == Over(Raised) || (e.Failed? && !e.ran) || Setbacks() > old(Setbacks())
      ensures o.StillRunning? && !again ==> e == Over(StillRunning)
    {
      hide InStep;
      if e.Over? { return e.outcome, false; }
      var d := Penalize(ledger, e.culprit);
      again := false;
      if d.allowed {
        o := Raised;
        again := clock.Sleep(d.delay as real);
      } else {
        o := if !e.ran then Raised else Returned(if e.code == 0 then 1 else e.code);
      }
    }

    method RoundAndRecover(ordered: seq<Service>, ledger: Budget.Ledger<Name>, fuel: nat)
      returns (o: Outcome, again: bool)
      requires Steady() && processes == map[] && StartOrder(ordered)
      requires InStep(ledger) && ledger.budgets.Keys == G().Keys
      modifies this`processes, this`retained, this`kept, this`owner, this`leaked, this`dropped, this`starts,
        this`exits, this`flunked, clock`now, clock`interruptions, clock`sleeps, clock`broken, adapter,
        ledger`restarts, ledger`last, ledger.budgets.Values
      ensures Steady() && InStep(ledger)
      ensures again ==> processes == map[] && |ledger.restarts| == |old(ledger.restarts)| + 1
      ensures |ledger.restarts| >= |old(ledger.restarts)|
      ensures o.Returned? ==> o.code != 0
      ensures old(dropped) <= dropped
      ensures Troubles() >= old(Troubles()) && Setbacks() >= old(Setbacks())
      ensures o.Raised? && !again ==> Troubles() + Setbacks() > old(Troubles() + Setbacks())
      ensures o.StillRunning? && !again ==> processes.Keys == G().Keys
      ensures old(exits) <= exits && (o.Returned? ==> old(exits) < exits) && EndsWith(o, ledger)
    {
      hide *;
      var e := Round(ordered, fuel);
      o, again := Recover(ledger, e);
      EndsForExit(o, e, ledger);
    }

    method Loop(ordered: seq<Service>, ledger: Budget.Ledger<Name>, fuel: nat) returns (o: Outcome, rounds: nat)
      requires Steady() && processes == map[] && StartOrder(ordered)
      requires InStep(ledger) && ledger.budgets.Keys == G().Keys && ledger.restarts == []
      modifies this`processes, this`retained, this`kept, this`owner, this`leaked, this`dropped, this`starts,
        this`exits, this`flunked, clock`now, clock`interruptions, clock`sleeps, clock`broken, adapter,
        ledger`restarts, ledger`last, ledger.budgets.Values
      ensures Steady() && InStep(ledger)
      ensures rounds <= |ledger.restarts| + 1
      ensures o.Returned? ==> o.code != 0
      ensures old(dropped) <= dropped
      ensures Troubles() >= old(Troubles()) && Setbacks() >= old(Setbacks())
      ensures o.Raised? ==> Troubles() + Setbacks() > old(Troubles() + Setbacks())
      ensures o.StillRunning? ==> (rounds == fuel && |ledger.restarts| == rounds) || processes.Keys == G().Keys
      ensures old(exits) <= exits && (o.Returned? ==> old(exits) < exits) && EndsWith(o, ledger)
    {
      hide Steady, StartOrder, InStep, Troubles, Setbacks, ByName;
      rounds := 0;
      var again := true;
      o := StillRunning;
      while again && rounds < fuel
        invariant Steady() && InStep(ledger) && old(dropped) <= dropped
        invariant again ==> processes == map[] && rounds == |ledger.restarts|
        invariant rounds <= |ledger.restarts| + 1 && rounds <= fuel
        invariant o.Returned? ==> o.code != 0
        invariant Troubles() >= old(Troubles()) && Setbacks() >= old(Setbacks())
        invariant old(exits) <= exits && (o.Returned? ==> old(exits) < exits) && EndsWith(o, ledger)
        invariant o.Raised? && !again ==> Troubles() + Setbacks() > old(Troubles() + Setbacks())
        invariant o.StillRunning? && !again ==> processes.Keys == G().Keys
        decreases fuel - rounds
      {
        o, again := RoundAndRecover(ordered, ledger, fuel);
        rounds := rounds + 1;
      }
      if again { o := StillRunning; }
    }

    method Rounds(ledger: Budget.Ledger<Name>, fuel: nat) returns (o: Outcome, rounds: nat)
      requires Steady() && processes == map[]
      requires InStep(ledger) && ledger.budgets.Keys == G().Keys && ledger.restarts == []
      modifies this`processes, this`retained, this`kept, this`owner, this`leaked, this`dropped, this`starts,
        this`exits, this`flunked, clock`now, clock`interruptions, clock`sleeps, clock`broken, adapter,
        ledger`restarts, ledger`last, ledger.budgets.Values
      ensures Steady() && InStep(ledger)
      ensures HasCycle(G()) ==> processes == map[] && rounds == 0 && o.Raised?
      ensures rounds <= |ledger.restarts| + 1
      ensures o.Returned? ==> o.code != 0
      ensures old(dropped) <= dropped
      ensures Troubles() >= old(Troubles()) && Setbacks() >= old(Setbacks())
      ensures o.Raised? ==> HasCycle(G()) || Troubles() + Setbacks() > old(Troubles() + Setbacks())
      ensures o.StillRunning? ==> (rounds == fuel && |ledger.restarts| == rounds) || processes.Keys == G().Keys
      ensures old(exits) <= exits && (o.Returned? ==> old(exits) < exits) && EndsWith(o, ledger)
    {
      hide Steady, InStep, Order, HasCycle, ByName;
      CyclicExactlyWithCycle(G());
      var entered := adapter.Try();
      if !entered { return Raised, 0; }
      var order := OrderedServices(services);
      if order.Cyclic? { return Raised, 0; }
      o, rounds := Loop(order.services, ledger, fuel);
    }

    /** One budget for every service name. */
    method MakeLedger() returns (ledger: Budget.Ledger<Name>)
      requires policy.Valid()
      ensures fresh(ledger) && fresh(ledger.budgets.Values)
      ensures ledger.Valid() && ledger.policy == policy && ledger.budgets.Keys == NamesOf(services)
      ensures ledger.restarts == [] && InStep(ledger)
    {
      ledger := new Budget.Ledger(policy, clock.now);
      for i := 0 to |services|
        invariant ledger.Valid() && fresh(ledger.budgets.Values) && ledger.budgets.Keys == NamesOf(services[..i])
        invariant ledger.restarts == [] && ledger.last == clock.now
      {
        NamesOfStep(services, i);
        if services[i].name !in ledger.budgets {
          ledger.Open(services[i].name);
        }
      }
      assert services[..|services|] == services;
    }

    /**
     Leaving the `with` block, which may raise, and the `finally` blocks: one last cascade, then the reaper,
     whatever the cascade did. Something may go on running only when a pause of that cascade was broken off.
     */
    method Leave(o: Outcome) returns (left: Outcome)
      requires Steady() && (HasCycle(G()) ==> processes == map[])
      modifies this`processes, this`retained, this`kept, this`owner, this`dropped, clock`interruptions,
        adapter`observed, adapter`codes, adapter`polls, adapter`closed, adapter`tries, adapter`failures
      ensures Left() && (left.Raised? || Steady())
      ensures processes == map[] || |dropped| > |old(dropped)|
      ensures left.Raised? || (left == o && processes == map[] && retained == [])
      ensures Troubles() >= old(Troubles()) && Setbacks() >= old(Setbacks())
      ensures left.Raised? ==>
                o.Raised? || HasCycle(G()) || Troubles() + Setbacks() > old(Troubles() + Setbacks()) || retained != []
    {
      var exited := adapter.Try();
      var r := StopCascade();
      var reaped := ReapRetained();
      return if exited && r.AllStopped? && reaped.NoneLeft? then o else Raised;
    }

    /** Every process ever created, and who answers for it once a run is over. */
    ghost predicate AllAccounted()
      reads this`processes, this`retained, this`leaked, this`dropped, adapter`created, adapter`closed
    {
      forall p | p in adapter.created ::
        p in adapter.closed || p in retained || p in leaked || p in dropped || p in processes.Values
    }

    lemma LeftAccounts()
      requires Left()
      ensures AllAccounted() && |leaked| <= adapter.failedReleases && |dropped| <= clock.interruptions
    {
      forall p | p in adapter.created
        ensures p in adapter.closed || p in retained || p in leaked || p in dropped || p in processes.Values
      {
        assert owner[p].Running? ==> processes[owner[p].name] == p;
      }
    }

    lemma NamesAreKeys()
      ensures NamesOf(services) == G().Keys
    {
      KeysAreNames(services);
    }

    lemma Budgeted(ledger: Budget.Ledger<Name>)
      requires InStep(ledger)
      ensures Budget.WithinTotal(ledger.policy, ledger.restarts, |ledger.budgets.Keys|)
    {
      ledger.StaysWithinTotal();
    }

    /**
     A run, cut off after `fuel` rounds if it is still going then. However it ends, nothing is left running,
     unless a pause of the last cascade was broken off; a process that could not be confirmed dead is kept and an
     error is raised; a process is lost only with a logon token that could not be released or with a broken pause,
     one for each; and restarts stay within the joint budget.
     */
    method Run(fuel: nat) returns (o: Outcome, rounds: nat, ghost restarts: seq<Budget.Failure<Name>>)
      requires Steady() && processes == map[] && policy.Valid()
      modifies this`processes, this`retained, this`kept, this`owner, this`leaked, this`dropped, this`starts,
        this`exits, this`flunked, adapter, clock
      ensures Left() && (o.Raised? || Steady())
      ensures !o.StillRunning? ==> (processes == map[] || |dropped| > |old(dropped)|) && AllAccounted()
      ensures o.Returned? ==> processes == map[] && retained == [] && o.code != 0
      ensures |leaked| <= adapter.failedReleases && |dropped| <= clock.interruptions
      ensures HasCycle(G()) ==> o.Raised? && rounds == 0
      ensures rounds <= |restarts| + 1 && Budget.WithinTotal(policy, restarts, |NamesOf(services)|)
      ensures o.Raised? ==>
                HasCycle(G()) || Troubles() + Setbacks() > old(Troubles() + Setbacks()) || retained != []
      ensures o.StillRunning? ==> (rounds == fuel && |restarts| == rounds) || processes.Keys == G().Keys
      ensures o.Returned? ==>
                && old(exits) < exits
                && var (culprit, code) := exits[|exits| - 1];
                && o.code == (if code == 0 then 1 else code)
                && Budget.Recently(policy, Budget.TimesOf(restarts, culprit), clock.now) >= policy.maximum
    {
      hide *;
      NamesAreKeys();
      var ledger := MakeLedger();
      o, rounds := RunWith(ledger, fuel);
      restarts := ledger.restarts;
      Budgeted(ledger);
      if o.Returned? { EndsBecause(o, ledger); }
      LeftAccounts();
    }

    method RunWith(ledger: Budget.Ledger<Name>, fuel: nat) returns (o: Outcome, rounds: nat)
      requires Steady() && processes == map[]
      requires InStep(ledger) && ledger.budgets.Keys == G().Keys && ledger.restarts == []
      modifies this`processes, this`retained, this`kept, this`owner, this`leaked, this`dropped, this`starts,
        this`exits, this`flunked, clock`now, clock`interruptions, clock`sleeps, clock`broken, adapter,
        ledger`restarts, ledger`last, ledger.budgets.Values
      ensures Left() && (o.Raised? || Steady()) && InStep(ledger)
      ensures !o.StillRunning? ==> processes == map[] || |dropped| > |old(dropped)|
      ensures o.Returned? ==> processes == map[] && retained == [] && o.code != 0
      ensures HasCycle(G()) ==> o.Raised? && rounds == 0
      ensures rounds <= |ledger.restarts| + 1
      ensures o.Raised? ==>
                HasCycle(G()) || Troubles() + Setbacks() > old(Troubles() + Setbacks()) || retained != []
      ensures o.StillRunning? ==> (rounds == fuel && |ledger.restarts| == rounds) || processes.Keys == G().Keys
      ensures old(exits) <= exits && (o.Returned? ==> old(exits) < exits) && EndsWith(o, ledger)
    {
      hide *;
      SteadyIsLeft();
      var cleared := Note();
      NoExit(Raised, ledger);
      if !cleared { return Raised, 0; }
      o, rounds := Rounds(ledger, fuel);
      SubsetSize(old(dropped), dropped);
      SteadyIsLeft();
      if !o.StillRunning? {
        o := Leave(o);
        NoExit(Raised, ledger);
      }
    }

    /** The diagnostic of a failed start is written, or an old one is removed. */
    method Note() returns (ok: bool)
      modifies adapter`failures
      ensures Troubles() == if ok then old(Troubles()) else old(Troubles()) + 1
    {
      ok := adapter.Try();
    }

    lemma SteadyIsLeft()
      requires Steady()
      ensures Left()
    {
    }
  }

  lemma DropOne(a: seq<Pid>, p: Pid, b: seq<Pid>)
    requires NoRepeats(a + ([p] + b))
    ensures NoRepeats(a + b)
    ensures forall x :: x in a + b <==> x in a + ([p] + b) && x != p
  {
    var whole := a + ([p] + b);
    assert forall i | 0 <= i < |a| :: whole[i] == a[i];
    assert whole[|a|] == p;
    assert forall i | 0 <= i < |b| :: whole[|a| + 1 + i] == b[i];
  }

  lemma NamesOfStep(s: seq<Service>, i: nat)
    requires i < |s|
    ensures NamesOf(s[..i + 1]) == NamesOf(s[..i]) + {s[i].name}
  {
    forall n | n in NamesOf(s[..i + 1]) ensures n in NamesOf(s[..i]) + {s[i].name} {
      var k :| 0 <= k < i + 1 && s[..i + 1][k].name == n;
      assert k < i ==> s[..i][k].name == n;
    }
    forall n | n in NamesOf(s[..i]) ensures n in NamesOf(s[..i + 1]) {
      var k :| 0 <= k < i && s[..i][k].name == n;
      assert s[..i + 1][k].name == n;
    }
    assert s[..i + 1][i].name == s[i].name;
  }

  lemma NextIsStartable(g: Graph, i: nat)
    requires Keyed(g) && Order(g).Ordered? && i < |Order(g).services|
    ensures var s := Order(g).services;
            && s[i].name in g && g[s[i].name] == s[i] && s[i].name !in NamesOf(s[..i])
            && NamesOf(s[..i + 1]) == NamesOf(s[..i]) + {s[i].name}
            && forall d | d in s[i].dependencies && d in g :: d in NamesOf(s[..i])
  {
    OrderIsTopological(g);
    var s := Order(g).services;
    forall d | d in s[i].dependencies && d in g ensures d in NamesOf(s[..i]) {
      var j :| Before(s, j, i, d);
      assert s[..i][j].name == d;
    }
    NamesOfStep(s, i);
  }

  lemma AllAreListed(g: Graph)
    requires Keyed(g) && Order(g).Ordered?
    ensures NamesOf(Order(g).services) == g.Keys
  {
    OrderIsTopological(g);
    var s := Order(g).services;
    forall n | n in g ensures n in NamesOf(s) {
      var i :| IsAt(s, i, n);
    }
  }

  lemma OrderLists(g: Graph)
    requires Keyed(g) && Order(g).Ordered?
    ensures Lists(g, Order(g).services)
  {
    OrderIsTopological(g);
  }

  lemma DependencyIsEarlier(g: Graph, i: nat, d: Name) returns (j: nat)
    requires Keyed(g) && Order(g).Ordered? && i < |Order(g).services|
    requires d in Order(g).services[i].dependencies && d in g
    ensures Before(Order(g).services, j, i, d)
  {
    OrderIsTopological(g);
    j :| Before(Order(g).services, j, i, d);
  }

  /** In reverse order, the next service to stop has no running dependents. */
  lemma NobodyDependsOnLast(g: Graph, k: nat, running: set<Name>)
    requires Keyed(g) && Order(g).Ordered? && k < |Order(g).services|
    requires running <= NamesOf(Order(g).services[..k + 1]) && running <= g.Keys
    ensures var s := Order(g).services;
            && (forall m | m in running :: s[k].name !in g[m].dependencies)
            && running - {s[k].name} <= NamesOf(s[..k])
  {
    NextIsStartable(g, k);
    OrderLists(g);
    var s := Order(g).services;
    forall m | m in running ensures s[k].name !in g[m].dependencies {
      var i :| 0 <= i < k + 1 && s[..k + 1][i].name == m;
      assert g[m] == s[i];
      if s[k].name in s[i].dependencies {
        var j := DependencyIsEarlier(g, i, s[k].name);
      }
    }
  }
}
