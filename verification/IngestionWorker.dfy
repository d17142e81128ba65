/**
 The worker loop over the ingestion tables, among any number of other workers, users and operators: what it does
 with a claim, how often it lets a job be tried again, and when it can leave a job locked up behind it.
 */
module IngestionWorker {

  import opened Ingestion
  import opened IngestionRuns
  import opened IngestionDatabase
  import opened Whitespace
  import opened Wrappers
  import Utf8

  // ---------- the error message of a poisoned job ----------

  function Strip(text: Utf8.Text): (r: Utf8.Text)
    ensures r != [] ==> !IsSpace(r[0])
  {
    if text == [] then []
    else if IsSpace(text[0]) then Strip(text[1..])
    else if IsSpace(text[|text| - 1]) then Strip(text[..|text| - 1])
    else text
  }

  function CodePoints(s: string): Utf8.Text {
    if s == "" then [] else [s[0] as int] + CodePoints(s[1..])
  }

  const DEFAULT := CodePoints("ingestion failed")

  lemma DefaultStarts()
    ensures DEFAULT != [] && DEFAULT[0] == 'i' as int
  {
    assert "ingestion failed"[0] == 'i';
  }

  function Message(error: Utf8.Text): Utf8.Text {
    var stripped := Strip(error);
    var message := if stripped == [] then DEFAULT else stripped;
    if |message| <= 500 then message else message[..500]
  }

  lemma {:induction false} TrimKeepsStart(text: Utf8.Text)
    requires text != [] && text[0] != SPACE
    ensures 1 <= |Trim(text)| <= |text|
  {
    if text[|text| - 1] == SPACE {
      TrimKeepsStart(text[..|text| - 1]);
    }
  }

  /** What is left of an error message without the blanks around it, up to 500 characters, or the default. */
  lemma MessageIs(error: Utf8.Text) returns (i: nat, j: nat)
    ensures i <= j <= |error| && (forall k | 0 <= k < i || j <= k < |error| :: IsSpace(error[k]))
    ensures i < j ==> !IsSpace(error[i]) && !IsSpace(error[j - 1])
    ensures Message(error) == if i == j then CodePoints("ingestion failed")
                              else if j - i <= 500 then error[i..j] else error[i..i + 500]
    ensures 1 <= |Message(error)| <= 500
  {
    hide CodePoints, IsSpace;
    i, j := StripIs(error);
    DefaultIsShort();
    if j - i > 500 { FirstOfSlice(error, i, j, 500); }
  }

  lemma FirstOfSlice(text: Utf8.Text, i: nat, j: nat, n: nat)
    requires i + n <= j <= |text|
    ensures text[i..j][..n] == text[i..i + n]
  {
  }

  lemma DefaultIsShort()
    ensures 1 <= |DEFAULT| <= 500
  {
    CodePointsLength("ingestion failed");
  }

  lemma {:induction false} CodePointsLength(s: string)
    ensures |CodePoints(s)| == |s|
  {
    if s != "" { CodePointsLength(s[1..]); }
  }

  lemma {:induction false} StripIs(text: Utf8.Text) returns (i: nat, j: nat)
    ensures i <= j <= |text| && (forall k | 0 <= k < i || j <= k < |text| :: IsSpace(text[k]))
    ensures i < j ==> !IsSpace(text[i]) && !IsSpace(text[j - 1])
    ensures Strip(text) == text[i..j]
    decreases |text|
  {
    hide IsSpace;
    i, j := 0, |text|;
    if text != [] && IsSpace(text[0]) {
      i, j := StripIs(text[1..]);
      assert forall k | 1 <= k < |text| :: text[k] == text[1..][k - 1];
      assert text[1..][i..j] == text[i + 1..j + 1];
      i, j := i + 1, j + 1;
    } else if text != [] && IsSpace(text[|text| - 1]) {
      i, j := StripIs(text[..|text| - 1]);
      assert text[..|text| - 1][i..j] == text[i..j];
    }
  }

  /** The same in the database, for spaces only. */
  lemma {:induction false} TrimIs(text: Utf8.Text) returns (i: nat, j: nat)
    ensures i <= j <= |text| && (forall k | 0 <= k < i || j <= k < |text| :: text[k] == 32)
    ensures i < j ==> text[i] != 32 && text[j - 1] != 32
    ensures Trim(text) == text[i..j]
    decreases |text|
  {
    i, j := 0, |text|;
    if text != [] && text[0] == 32 {
      i, j := TrimIs(text[1..]);
      assert forall k | 1 <= k < |text| :: text[k] == text[1..][k - 1];
      i, j := i + 1, j + 1;
    } else if text != [] && text[|text| - 1] == 32 {
      i, j := TrimIs(text[..|text| - 1]);
      assert text[..|text| - 1][i..j] == text[i..j];
    }
  }

  /** U+0000, a lone surrogate, or no code point at all. */
  predicate Unsendable(c: int) {
    c == 0 || !(0 <= c < 0xD800 || 0xE000 <= c < 0x110000)
  }

  /**
   After stripping, defaulting and truncating, the database never refuses the message: poisoning raises exactly if the
   message holds U+0000 or a lone surrogate, and is refused exactly if the lease is lost.
   */
  lemma PoisonNeedsOnlyTheLease(s: State, t: Time, j: Id, token: Token, fence: nat, error: Utf8.Text)
    ensures Poison(s, t, j, token, fence, Message(error)).outcome
         == if exists k :: 0 <= k < |Message(error)| && Unsendable(Message(error)[k]) then Raised
            else if Holds(s, t, j, token, fence) then Done else Refused
  {
    hide CodePoints;
    DefaultStarts();
    TrimKeepsStart(Message(error));
  }

  // ---------- when a job may be tried again ----------

  function Power2(n: nat): (r: nat)
    ensures r > 0
  {
    if n == 0 then 1 else 2 * Power2(n - 1)
  }

  /** Doubles with every attempt, up to five minutes. */
  function Delay(base: nat, attempt: int): (r: nat)
    ensures r <= 300 && (base > 0 ==> r > 0)
  {
    var exponent := if attempt - 1 < 0 then 0 else if attempt - 1 > 20 then 20 else attempt - 1;
    var delay := base * Power2(exponent);
    if base > 0 then assert delay > 0; if delay < 300 then delay else 300 else 0
  }

  /** The first delay is the configured one, and each further one twice the one before, up to five minutes. */
  lemma DelayDoubles(base: nat, attempt: nat)
    requires attempt > 0
    ensures Delay(base, 1) == if base < 300 then base else 300
    ensures Delay(base, attempt + 1) == if 2 * Delay(base, attempt) < 300 then 2 * Delay(base, attempt) else 300
  {
    assert Power2(0) == 1 && base * 1 == base;
    if base > 0 && attempt <= 20 {
      Doubled(base, Power2(attempt - 1));
    } else if base > 0 {
      TwentyIsPlenty(base);
    }
  }

  lemma Doubled(base: nat, power: nat)
    ensures base * (2 * power) == 2 * (base * power)
  {
  }

  lemma TwentyIsPlenty(base: nat)
    requires base > 0
    ensures base * Power2(20) >= 300
  {
    assert Power2(9) == 512;
    assert Power2(20) == 2048 * Power2(9);
    assert base * Power2(20) >= 1 * Power2(20);
  }

  // ---------- the shared database ----------

  /** The database and its clock, with everything that has happened on them. */
  class Deployment {
    const db: Database
    /** How often a job may be attempted; every worker of the deployment is configured alike. */
    const maximum: nat
    var now: Time
    ghost const initial: State
    ghost const start: Time
    ghost var history: seq<Event>

    ghost predicate Valid()
      reads this, db
    {
      && Inv(initial, start) && InOrder(start, history) && End(start, history) <= now
      && db.Tables() == Run(initial, history)
      && forall j :: WorkersObey(initial, history, j, maximum)
    }

    constructor (db: Database, maximum: nat, now: Time)
      requires Inv(db.Tables(), now)
      ensures Valid() && this.db == db && this.maximum == maximum && this.now == now && history == []
    {
      this.db, this.maximum, this.now := db, maximum, now;
      this.initial, this.start, this.history := db.Tables(), now, [];
    }

    lemma Consistent()
      requires Valid()
      ensures Inv(db.Tables(), now)
    {
      RunKeepsInv(initial, start, history);
      LaterIsFine(db.Tables(), End(start, history), now);
    }

    /** Whatever any number of workers meet, each job is requeued fewer times than it may be attempted. */
    lemma RetriesAreBounded(j: Id)
      requires Valid()
      ensures Requeues(initial, history, j) + Remaining(db.Tables(), j, maximum) <= Remaining(initial, j, maximum)
    {
      assert WorkersObey(initial, history, j, maximum);
      RequeuesAreBounded(initial, start, history, j, maximum);
    }

    /** Who requeues must have claimed an attempt below the maximum. */
    predicate MayAsk(op: Op) {
      op.DoRequeue? ==> op.fence < maximum
    }

    lemma Obeyed(e: Event)
      requires Inv(initial, start) && InOrder(start, history) && MayAsk(e.op)
      requires forall j :: WorkersObey(initial, history, j, maximum)
      ensures forall j :: WorkersObey(initial, history + [e], j, maximum)
    {
      RunKeepsInv(initial, start, history);
      var s := Run(initial, history);
      forall j ensures WorkersObey(initial, history + [e], j, maximum) {
        assert (history + [e])[..|history|] == history;
        assert WorkersObey(initial, history, j, maximum);
        assert j in s.jobs ==> JobOk(s, s.jobs[j], End(start, history));
      }
    }

    lemma Extended(e: Event)
      requires InOrder(start, history) && End(start, history) <= e.time
      ensures InOrder(start, history + [e]) && End(start, history + [e]) == e.time
      ensures Run(initial, history + [e]) == Apply(Run(initial, history), e.time, e.op).state
    {
      assert (history + [e])[..|history|] == history;
      assert forall i | 0 <= i < |history| :: history[i].time <= End(start, history);
    }

    /** Time passes. */
    method Tick()
      requires Valid()
      modifies this`now
      ensures Valid() && old(now) <= now
    {
      var later: Time := *;
      if later > now { now := later; }
    }

    method Perform(op: Op) returns (outcome: Outcome)
      requires Valid() && MayAsk(op)
      modifies this`history, db
      ensures Valid() && history == old(history) + [Event(now, op)]
      ensures Result(db.Tables(), outcome) == Apply(old(db.Tables()), now, op)
    {
      Extended(Event(now, op));
      Obeyed(Event(now, op));
      outcome := db.Perform(now, op);
      history := history + [Event(now, op)];
    }

    /** Everybody else: any steps at any time, except that workers keep to the rule about requeueing. */
    method Others()
      requires Valid()
      modifies this`now, this`history, db
      ensures Valid() && old(now) <= now && old(history) <= history
    {
      var steps: int := *;
      while steps > 0
        invariant Valid() && old(now) <= now && old(history) <= history
      {
        Tick();
        var op: Op := *;
        if MayAsk(op) { var outcome := Perform(op); }
        steps := steps - 1;
      }
      Tick();
    }

    /** The claim of one worker; others may have rows locked. */
    method ClaimNext(token: Token, seconds: int) returns (claimed: Option<Id>, ghost locked: set<Id>)
      requires Valid()
      modifies this`history, db
      ensures Valid()
      ensures claimed.None? ==> history == old(history) && db.Tables() == old(db.Tables())
      ensures claimed.None? && 5 <= seconds <= 3600 ==> forall i | Claimable(db.Tables(), now, i) :: i in locked
      ensures claimed.Some? ==> history == old(history) + [Event(now, DoClaim(claimed.value, token, seconds))]
      ensures claimed.Some? ==>
        Result(db.Tables(), Done) == Apply(old(db.Tables()), now, DoClaim(claimed.value, token, seconds))
    {
      var taken: set<Id> := *;
      locked := taken;
      claimed := db.ClaimJob(now, taken, token, seconds);
      if claimed.Some? {
        ghost var e := Event(now, DoClaim(claimed.value, token, seconds));
        Obeyed(e);
        Extended(e);
        history := history + [e];
      }
    }
  }

  // ---------- one worker ----------

  /** What a worker was given with its claim. */
  datatype Ticket = Ticket(job: Id, token: Token, attempt: nat, fence: nat)

  /**
   A call may be carried out and its answer still be lost, by an error of the database layer or by another one, such
   as a time limit of the operating system.
   */
  datatype Answer = Answered(outcome: Outcome) | Broken | Astray(timeout: bool)

  datatype ClaimResult = Got(ticket: Ticket) | NothingToDo | ClaimBroken

  /** How processing a document may end. */
  datatype Processing =
    | Finished(pages: nat, rows: seq<Row>)
    | LostClaim
    | DatabaseFailure
    | Rejected(error: Utf8.Text)
    | TimedOut
    | StoreFailure(retryable: bool, error: Utf8.Text)
    | ServiceFailure(error: Utf8.Text)
    | Unexpected

  datatype Ending = Idle | Ended | Crashed | Lost(timeout: bool)

  /** What a call that did not succeed while processing comes to. */
  function Failure(a: Answer): Processing {
    match a
    case Answered(outcome) => if outcome.Raised? then DatabaseFailure else LostClaim
    case Broken => DatabaseFailure
    case Astray(timeout) => if timeout then TimedOut else Unexpected
  }

  predicate ActsOn(op: Op, c: Ticket) {
    ActsFor(op, c.job, c.fence) && op.token == c.token
  }

  predicate IsFinal(op: Op) {
    op.DoCommit? || op.DoRequeue? || op.DoPoison?
  }

  /** After `before`, only steps of the claim, of which none ends it. */
  predicate Working(before: seq<Event>, log: seq<Event>, c: Ticket) {
    before <= log && forall i | |before| <= i < |log| :: ActsOn(log[i].op, c) && !IsFinal(log[i].op)
  }

  /** Step `i` is a commit whose answer went astray, and a poisoning was tried after it. */
  predicate CommitAstray(log: seq<Event>, i: nat)
    requires i < |log|
  {
    i == |log| - 2 && log[i].op.DoCommit? && log[i + 1].op.DoPoison?
  }

  /**
   A claim, then steps with its token and fence only; at most the last of them ends the claim, or a commit and a
   poisoning, of which only one can succeed.
   */
  predicate Episode(before: seq<Event>, log: seq<Event>, c: Ticket) {
    && before <= log && |before| < |log|
    && log[|before|].op.DoClaim? && log[|before|].op.j == c.job && log[|before|].op.token == c.token
    && (forall i | |before| < i < |log| :: ActsOn(log[i].op, c))
    && (forall i | |before| < i < |log| - 1 :: IsFinal(log[i].op) ==> CommitAstray(log, i))
  }

  /**
   The step, taken in the state `before`, leaves the job locked: its lease is held, but the time the worker asked for
   is not in the future, or its report went backwards and was taken for a lost lease.
   */
  predicate LeavesLocked(before: State, e: Event, c: Ticket) {
    && Holds(before, e.time, c.job, c.token, c.fence)
    && match e.op
       case DoRequeue(_, _, _, availableAt) => availableAt <= e.time
       case DoProgress(_, _, _, stage, completed, total) => Regresses(before.jobs[c.job], stage, completed, total)
       case _ => false
  }

  /**
   It happens: a document is uploaded, its job is claimed, and the claimant, whose clock is behind, asks for another
   attempt at a time that has passed. The request is refused, and the lease keeps everybody else away until it ends.
   */
  lemma StaysLocked(d: Id, j: Id, content: int, versions: Versions, uploader: Id, start: Time, now: Time,
                    availableAt: Time, token: Token, seconds: int, u: Time)
    requires 5 <= seconds <= 3600 && start <= now < start + seconds && availableAt <= now && now <= u < start + seconds
    ensures var claimed := Run(State(map[], map[], map[]), [Event(start, DoUpload(d, j, content, versions, uploader)),
                                                            Event(start, DoClaim(j, token, seconds))]);
            var last := Event(now, DoRequeue(j, token, 1, availableAt));
            && LeavesLocked(claimed, last, Ticket(j, token, 1, 1))
            && Apply(claimed, now, last.op) == Result(claimed, Refused) && Holds(claimed, u, j, token, 1)
            && forall other, more :: !Apply(claimed, u, DoClaim(j, other, more)).outcome.Done?
  {
    var empty := State(map[], map[], map[]);
    var upload := Event(start, DoUpload(d, j, content, versions, uploader));
    var events := [upload, Event(start, DoClaim(j, token, seconds))];
    assert events[..1] == [upload] && [upload][..0] == [];
    assert Run(empty, [upload]) == Upload(empty, start, d, j, content, versions, uploader).state;
    assert Run(empty, events) == Claim(Run(empty, [upload]), start, j, token, seconds).state;
  }

  const OVERTIME := CodePoints("processing_timeout: document processing exceeded the configured time limit")
  const FAILED := CodePoints("ingestion processor failed")

  /** After `before`, only steps of the claim, of which only the last may end it, or a commit and a poisoning. */
  predicate Serving(before: seq<Event>, log: seq<Event>, c: Ticket) {
    && before <= log && (forall i | |before| <= i < |log| :: ActsOn(log[i].op, c))
    && (forall i | |before| <= i < |log| - 1 :: IsFinal(log[i].op) ==> CommitAstray(log, i))
  }

  lemma ServedAfterClaim(before: seq<Event>, claimed: seq<Event>, log: seq<Event>, c: Ticket)
    requires Episode(before, claimed, c) && |claimed| == |before| + 1 && Serving(claimed, log, c)
    ensures Episode(before, log, c)
  {
  }

  /** The step that settles a claim, by how processing ended. */
  predicate Settles(op: Op, r: Processing, c: Ticket, maximum: nat) {
    match r
    case Finished(pages, rows) => op == DoCommit(c.job, c.token, c.fence, pages, rows)
    case LostClaim => false
    case DatabaseFailure => false
    case Rejected(error) => op == DoPoison(c.job, c.token, c.fence, Message(error))
    case TimedOut => op == DoPoison(c.job, c.token, c.fence, Message(OVERTIME))
    case StoreFailure(retryable, error) =>
      if retryable && c.attempt < maximum then op.DoRequeue? && ActsOn(op, c)
      else op == DoPoison(c.job, c.token, c.fence, Message(error))
    case ServiceFailure(error) =>
      if c.attempt < maximum then op.DoRequeue? && ActsOn(op, c)
      else op == DoPoison(c.job, c.token, c.fence, Message(error))
    case Unexpected => op == DoPoison(c.job, c.token, c.fence, Message(FAILED))
  }

  /** What is added to the log when the result `r` is settled: nothing, the step that settles it, or its own way. */
  predicate SettledBy(before: seq<Event>, log: seq<Event>, r: Processing, c: Ticket, maximum: nat) {
    && before <= log
    && match |log| - |before|
       case 0 => true
       case 1 => Settles(log[|before|].op, r, c, maximum) || (r.Finished? && PoisonedAfter(log[|before|].op, c))
       case 2 => r.Finished? && Settles(log[|before|].op, r, c, maximum) && PoisonedAfter(log[|before| + 1].op, c)
       case _ => false
  }

  predicate PoisonedAfter(op: Op, c: Ticket) {
    || op == DoPoison(c.job, c.token, c.fence, Message(OVERTIME))
    || op == DoPoison(c.job, c.token, c.fence, Message(FAILED))
  }

  class Worker {
    const site: Deployment
    const leaseSeconds: int
    const retryBase: nat
    const timeout: nat
    /** The steps of this worker. */
    ghost var log: seq<Event>
    /** How often the database failed it: a call broke or went astray, or raised. */
    ghost var troubles: nat

    constructor (site: Deployment, leaseSeconds: int, retryBase: nat, timeout: nat)
      ensures this.site == site && this.leaseSeconds == leaseSeconds && log == []
    {
      this.site, this.leaseSeconds, this.retryBase, this.timeout := site, leaseSeconds, retryBase, timeout;
      log, troubles := [], 0;
    }

    ghost predicate Owns(c: Ticket)
      reads site, site.db
    {
      Holds(site.db.Tables(), site.now, c.job, c.token, c.fence)
    }

    /** A ticket for a lease of a length the database accepts; the attempt is the fence. */
    predicate IsTicket(c: Ticket) {
      5 <= leaseSeconds <= 3600 && c.attempt == c.fence
    }

    /**
     How the claim's last step left things, taken in the state `before`: the worker still holds the lease exactly if
     that step leaves the job locked.
     */
    ghost predicate LetGo(c: Ticket, before: State)
      reads this`log, site, site.db
    {
      && log != [] && LastStep(before, log[|log| - 1])
      && (Owns(c) <==> LeavesLocked(before, log[|log| - 1], c))
    }

    ghost predicate LastStep(before: State, e: Event)
      reads site, site.db
    {
      e.time == site.now && site.db.Tables() == Apply(before, e.time, e.op).state
    }

    method Call(op: Op) returns (a: Answer, ghost before: State)
      requires site.Valid() && site.MayAsk(op)
      modifies this`log, this`troubles, site`now, site`history, site.db
      ensures site.Valid() && (log == old(log) || log == old(log) + [Event(site.now, op)])
      ensures a.Answered? ==> log == old(log) + [Event(site.now, op)]
      ensures a.Answered? ==> Result(site.db.Tables(), a.outcome) == Apply(before, site.now, op)
      ensures troubles == if a.Answered? && !a.outcome.Raised? then old(troubles) else old(troubles) + 1
    {
      site.Others();
      before := site.db.Tables();
      troubles := troubles + 1;
      var late: bool := *;
      if * { return Broken, before; }
      if * { return Astray(late), before; }
      var outcome := site.Perform(op);
      log := log + [Event(site.now, op)];
      if * { return Broken, before; }
      if * { return Astray(late), before; }
      if !outcome.Raised? { troubles := troubles - 1; }
      return Answered(outcome), before;
    }

    /** `locked` are the rows other sessions had locked. */
    method Claim() returns (r: ClaimResult, ghost locked: set<Id>)
      requires site.Valid()
      modifies this`log, this`troubles, site`now, site`history, site.db
      ensures site.Valid()
      ensures r.NothingToDo? ==>
                log == old(log) && forall i | Claimable(site.db.Tables(), site.now, i) :: i in locked
      ensures if r.ClaimBroken? then troubles == old(troubles) + 1 else troubles == old(troubles)
      ensures r.ClaimBroken? ==> log == old(log) || exists c :: Episode(old(log), log, c)
      ensures r.Got? ==>
                IsTicket(r.ticket) && Episode(old(log), log, r.ticket) && |log| == |old(log)| + 1 && Owns(r.ticket)
    {
      site.Others();
      locked := {};
      troubles := troubles + 1;
      if !(5 <= leaseSeconds <= 3600) { return ClaimBroken, locked; }
      if * { return ClaimBroken, locked; }
      var token: Token := *;
      var claimed;
      claimed, locked := site.ClaimNext(token, leaseSeconds);
      if claimed.None? {
        if * { return ClaimBroken, locked; }
        troubles := troubles - 1;
        return NothingToDo, locked;
      }
      site.Consistent();
      var job := site.db.jobs[claimed.value];
      assert JobOk(site.db.Tables(), job, site.now);
      var ticket := Ticket(claimed.value, token, job.attempt, job.fence);
      log := log + [Event(site.now, DoClaim(claimed.value, token, leaseSeconds))];
      assert Episode(old(log), log, ticket);
      if * { return ClaimBroken, locked; }
      troubles := troubles - 1;
      return Got(ticket), locked;
    }

    /** Reports of the processor; a stale one ends the processing. */
    method Report(c: Ticket) returns (failed: bool, r: Processing, ghost before: State)
      requires site.Valid() && IsTicket(c)
      modifies this`log, this`troubles, site`now, site`history, site.db
      ensures site.Valid() && Working(old(log), log, c)
      ensures failed ==> r.LostClaim? || r.DatabaseFailure? || r.TimedOut? || r.Unexpected?
      ensures failed && r.LostClaim? ==> LetGo(c, before)
      ensures troubles >= old(troubles) && (failed && r.DatabaseFailure? ==> troubles > old(troubles))
    {
      var stage: Stage, completed: int, total: int := *, *, *;
      var a;
      a, before := Call(DoProgress(c.job, c.token, c.fence, stage, completed, total));
      failed := a != Answered(Done);
      r := Failure(a);
    }

    method Beat(c: Ticket) returns (failed: bool, r: Processing, ghost before: State)
      requires site.Valid() && IsTicket(c)
      modifies this`log, this`troubles, site`now, site`history, site.db
      ensures site.Valid() && Working(old(log), log, c)
      ensures failed ==> r.LostClaim? || r.DatabaseFailure? || r.TimedOut? || r.Unexpected?
      ensures failed && r.LostClaim? ==> LetGo(c, before)
      ensures troubles >= old(troubles) && (failed && r.DatabaseFailure? ==> troubles > old(troubles))
    {
      var a;
      a, before := Call(DoHeartbeat(c.job, c.token, c.fence, leaseSeconds));
      failed := a != Answered(Done);
      r := Failure(a);
    }

    /** Processes the document, with a heartbeat at most every second until the time limit. */
    method ProcessWithHeartbeat(c: Ticket) returns (r: Processing, ghost before: State)
      requires site.Valid() && IsTicket(c)
      modifies this`log, this`troubles, site`now, site`history, site.db
      ensures site.Valid() && Working(old(log), log, c)
      ensures r.LostClaim? ==> LetGo(c, before)
      ensures troubles >= old(troubles) && (r.DatabaseFailure? ==> troubles > old(troubles))
    {
      var failed := false;
      before := site.db.Tables();
      for beats := 0 to timeout
        invariant site.Valid() && Working(old(log), log, c) && troubles >= old(troubles)
      {
        var reports: int := *;
        while reports > 0
          invariant site.Valid() && Working(old(log), log, c) && troubles >= old(troubles)
        {
          failed, r, before := Report(c);
          if failed { return; }
          reports := reports - 1;
        }
        if * {
          r := *;
          if r.DatabaseFailure? { troubles := troubles + 1; }
          if !r.LostClaim? { return; }
        }
        failed, r, before := Beat(c);
        if failed { return; }
      }
      return TimedOut, before;
    }

    method Poison(c: Ticket, error: Utf8.Text) returns (end: Ending, ghost before: State)
      requires site.Valid() && IsTicket(c)
      modifies this`log, this`troubles, site`now, site`history, site.db
      ensures site.Valid() && (end.Ended? || end.Crashed?)
      ensures log == old(log) || log == old(log) + [Event(site.now, DoPoison(c.job, c.token, c.fence, Message(error)))]
      ensures end.Ended? ==> log != old(log) && !Owns(c) && LetGo(c, before)
      ensures if end.Ended? then troubles == old(troubles) else troubles > old(troubles)
    {
      var a;
      a, before := Call(DoPoison(c.job, c.token, c.fence, Message(error)));
      PoisonNeedsOnlyTheLease(before, site.now, c.job, c.token, c.fence, error);
      end := if a.Answered? && !a.outcome.Raised? then Ended else Crashed;
    }

    /** Asks for another attempt, after a delay by the worker's own clock. */
    method Requeue(c: Ticket, hostNow: Time) returns (end: Ending, ghost before: State)
      requires site.Valid() && IsTicket(c) && c.attempt < site.maximum
      modifies this`log, this`troubles, site`now, site`history, site.db
      ensures site.Valid() && (end.Ended? || end.Crashed?)
      ensures var availableAt := hostNow + Delay(retryBase, c.attempt);
              log == old(log) || log == old(log) + [Event(site.now, DoRequeue(c.job, c.token, c.fence, availableAt))]
      ensures end.Ended? ==> log != old(log) && LetGo(c, before)
      ensures if end.Ended? then troubles == old(troubles) else troubles > old(troubles)
      ensures end.Ended? ==>
                (Owns(c) <==> Holds(before, site.now, c.job, c.token, c.fence)
                              && log[|old(log)|].op.availableAt <= site.now)
    {
      var a;
      a, before := Call(DoRequeue(c.job, c.token, c.fence, hostNow + Delay(retryBase, c.attempt)));
      end := if a.Answered? && !a.outcome.Raised? then Ended else Crashed;
    }

    method Commit(c: Ticket, pages: nat, rows: seq<Row>) returns (end: Ending, ghost before: State)
      requires site.Valid() && IsTicket(c)
      modifies this`log, this`troubles, site`now, site`history, site.db
      ensures site.Valid() && !end.Idle?
      ensures log == old(log) || log == old(log) + [Event(site.now, DoCommit(c.job, c.token, c.fence, pages, rows))]
      ensures end.Ended? ==> log != old(log) && !Owns(c) && LetGo(c, before)
      ensures if end.Ended? then troubles == old(troubles) else troubles > old(troubles)
    {
      var a;
      a, before := Call(DoCommit(c.job, c.token, c.fence, pages, rows));
      end := match a
             case Answered(outcome) => if outcome.Raised? then Crashed else Ended
             case Broken => Crashed
             case Astray(timeout) => Lost(timeout);
    }

    /** Commits the result; when that raises anything but an error of the database, the job is poisoned instead. */
    method Finish(c: Ticket, pages: nat, rows: seq<Row>) returns (end: Ending, ghost before: State)
      requires site.Valid() && IsTicket(c)
      modifies this`log, this`troubles, site`now, site`history, site.db
      ensures site.Valid() && (end.Ended? || end.Crashed?) && (end.Ended? ==> log != old(log) && LetGo(c, before))
      ensures SettledBy(old(log), log, Finished(pages, rows), c, site.maximum)
      ensures troubles >= old(troubles) && (end.Crashed? ==> troubles > old(troubles))
    {
      hide CodePoints, Message, LetGo;
      end, before := Commit(c, pages, rows);
      if end.Lost? {
        end, before := Poison(c, if end.timeout then OVERTIME else FAILED);
      }
    }

    /** What the worker does with a claim once processing is over. */
    method Settle(c: Ticket, r: Processing, ghost earlier: State) returns (end: Ending, ghost before: State)
      requires site.Valid() && IsTicket(c) && (r.LostClaim? ==> LetGo(c, earlier))
      modifies this`log, this`troubles, site`now, site`history, site.db
      ensures site.Valid() && (end.Ended? || end.Crashed?) && (end.Ended? ==> LetGo(c, before))
      ensures SettledBy(old(log), log, r, c, site.maximum)
      ensures end.Ended? ==> (log == old(log) <==> r.LostClaim?)
      ensures old(log) < log ==>
                var op := log[|old(log)|].op;
                && (op.DoRequeue? <==> c.attempt < site.maximum
                                       && (r.ServiceFailure? || (r.StoreFailure? && r.retryable)))
                && (op.DoCommit? ==> r.Finished?)
                && (r.TimedOut? ==> op == DoPoison(c.job, c.token, c.fence, Message(CodePoints(
                     "processing_timeout: document processing exceeded the configured time limit"))))
                && (r.Unexpected? ==>
                      op == DoPoison(c.job, c.token, c.fence, Message(CodePoints("ingestion processor failed"))))
      ensures troubles >= old(troubles) && (end.Crashed? && !r.DatabaseFailure? ==> troubles > old(troubles))
    {
      hide LetGo, Message, CodePoints, Delay;
      before := earlier;
      var hostNow: Time := *;
      match r
      case Finished(pages, rows) => end, before := Finish(c, pages, rows);
      case LostClaim => end := Ended;
      case DatabaseFailure => end := Crashed;
      case Rejected(error) => end, before := Poison(c, error);
      case TimedOut => end, before := Poison(c, OVERTIME);
      case StoreFailure(retryable, error) =>
        if retryable && c.attempt < site.maximum {
          end, before := Requeue(c, hostNow);
        } else {
          end, before := Poison(c, error);
        }
      case ServiceFailure(error) =>
        if c.attempt < site.maximum { end, before := Requeue(c, hostNow); } else { end, before := Poison(c, error); }
      case Unexpected => end, before := Poison(c, FAILED);
    }

    method Serve(c: Ticket) returns (end: Ending, ghost before: State)
      requires site.Valid() && IsTicket(c)
      modifies this`log, this`troubles, site`now, site`history, site.db
      ensures site.Valid() && (end.Ended? || end.Crashed?) && Serving(old(log), log, c)
      ensures end.Ended? ==> LetGo(c, before)
      ensures troubles >= old(troubles) && (end.Crashed? ==> troubles > old(troubles))
    {
      hide LetGo, Message, CodePoints;
      var r;
      r, before := ProcessWithHeartbeat(c);
      end, before := Settle(c, r, before);
    }

    /**
     One turn of the loop. Whatever goes wrong, the worker acts on at most one claim, only with that claim's token
     and fence, and ends it at most once. Unless the database failed it, it has let go of the job then, and the job
     stays locked behind it exactly if the last step was taken under its lease and either asked for a time that was
     not in the database's future or reported progress that went backwards.
     */
    method Turn() returns (end: Ending, ghost c: Ticket, ghost before: State, ghost locked: set<Id>)
      requires site.Valid()
      modifies this`log, this`troubles, site`now, site`history, site.db
      ensures site.Valid()
      ensures end.Idle? ==> log == old(log) && forall i | Claimable(site.db.Tables(), site.now, i) :: i in locked
      ensures end.Crashed? ==> troubles > old(troubles)
      ensures end.Crashed? ==> log == old(log) || exists c :: Episode(old(log), log, c)
      ensures end.Ended? ==> Episode(old(log), log, c) && LetGo(c, before)
      ensures !end.Lost? && troubles >= old(troubles)
    {
      hide LetGo;
      c, before := Ticket(0, 0, 0, 0), site.db.Tables();
      var claim;
      claim, locked := Claim();
      if claim.NothingToDo? { return Idle, c, before, locked; }
      if claim.ClaimBroken? { return Crashed, c, before, locked; }
      c := claim.ticket;
      ghost var claimed := log;
      end, before := Serve(claim.ticket);
      ServedAfterClaim(old(log), claimed, log, c);
    }

    /** The worker, stopped after at most `turns` turns; a database failure ends it. */
    method Loop(turns: nat) returns (end: Ending)
      requires site.Valid()
      modifies this`log, this`troubles, site`now, site`history, site.db
      ensures site.Valid() && old(log) <= log && (end.Crashed? ==> troubles > old(troubles))
    {
      end := Idle;
      for i := 0 to turns
        invariant site.Valid() && old(log) <= log && !end.Crashed? && troubles >= old(troubles)
      {
        ghost var c, before, locked;
        end, c, before, locked := Turn();
        if end.Crashed? { return; }
      }
    }
  }
}
