/** Sliding-window restart budgets: one per service, and what they bound together over a whole run. */
module RestartBudget {

  type Time = real

  datatype Policy = Policy(maximum: nat, window: Time, backoff: seq<nat>) {
    predicate Valid() {
      maximum >= 1 && window > 0.0 && backoff != []
    }
  }

  /** The delay after `n` recent restarts: the one at that place of the list, or its last one. */
  function Backoff(p: Policy, n: nat): nat
    requires p.Valid()
  {
    if n < |p.backoff| then p.backoff[n] else p.backoff[|p.backoff| - 1]
  }

  datatype Decision = Decision(allowed: bool, delay: nat, attemptsInWindow: nat)

  // ---------- counting ----------

  function One(t: Time, lo: Time, hi: Time): nat {
    if lo < t <= hi then 1 else 0
  }

  /** How many entries fall in the half-open window (lo, hi]. */
  function Count(log: seq<Time>, lo: Time, hi: Time): nat {
    if log == [] then 0 else Count(log[..|log| - 1], lo, hi) + One(log[|log| - 1], lo, hi)
  }

  predicate Nondecreasing(log: seq<Time>) {
    forall i, j | 0 <= i < j < |log| :: log[i] <= log[j]
  }

  lemma {:induction false} CountConcat(a: seq<Time>, b: seq<Time>, lo: Time, hi: Time)
    ensures Count(a + b, lo, hi) == Count(a, lo, hi) + Count(b, lo, hi)
  {
    if b == [] {
      assert a + b == a;
    } else {
      var k := |b| - 1;
      assert (a + b)[..|a + b| - 1] == a + b[..k];
      CountConcat(a, b[..k], lo, hi);
    }
  }

  lemma {:induction false} CountNone(log: seq<Time>, lo: Time, hi: Time)
    requires forall i | 0 <= i < |log| :: !(lo < log[i] <= hi)
    ensures Count(log, lo, hi) == 0
  {
    if log != [] { CountNone(log[..|log| - 1], lo, hi); }
  }

  lemma {:induction false} CountAll(log: seq<Time>, lo: Time, hi: Time)
    requires forall i | 0 <= i < |log| :: lo < log[i] <= hi
    ensures Count(log, lo, hi) == |log|
  {
    if log != [] { CountAll(log[..|log| - 1], lo, hi); }
  }

  /** Entries that one window holds are held by any window covering them. */
  lemma {:induction false} CountCovered(log: seq<Time>, lo: Time, hi: Time, lo': Time, hi': Time)
    requires forall i | 0 <= i < |log| && lo < log[i] <= hi :: lo' < log[i] <= hi'
    ensures Count(log, lo, hi) <= Count(log, lo', hi')
  {
    if log != [] { CountCovered(log[..|log| - 1], lo, hi, lo', hi'); }
  }

  // ---------- the specification: which failures are granted a restart ----------

  /** The restarts granted within the policy's window ending at `end`. */
  function Recently(p: Policy, log: seq<Time>, end: Time): nat {
    Count(log, end - p.window, end)
  }

  /** The granted restarts after one more failure, recorded at `now`. */
  function Grant(p: Policy, log: seq<Time>, now: Time): seq<Time> {
    if Recently(p, log, now) < p.maximum then log + [now] else log
  }

  predicate UpTo(log: seq<Time>, end: Time) {
    Nondecreasing(log) && forall i | 0 <= i < |log| :: log[i] <= end
  }

  /** No window, wherever it ends, holds more than the allowed number of restarts. */
  ghost predicate InBudget(p: Policy, log: seq<Time>) {
    forall end :: Recently(p, log, end) <= p.maximum
  }

  lemma GrantStaysInBudget(p: Policy, log: seq<Time>, now: Time)
    requires UpTo(log, now) && InBudget(p, log)
    ensures InBudget(p, Grant(p, log, now))
  {
    forall end ensures Recently(p, Grant(p, log, now), end) <= p.maximum {
      CountConcat(log, [now], end - p.window, end);
      assert Recently(p, log, end) <= p.maximum;
      if end - p.window < now <= end {
        CountCovered(log, end - p.window, end, now - p.window, now);
      }
    }
  }

  /** Once the stale entries are dropped, the length of the rest is the count. */
  lemma SuffixCount(log: seq<Time>, k: nat, lo: Time, hi: Time)
    requires k <= |log| && UpTo(log, hi)
    requires forall i | 0 <= i < k :: log[i] <= lo
    requires k < |log| ==> log[k] > lo
    ensures Count(log, lo, hi) == |log| - k
  {
    assert log == log[..k] + log[k..];
    CountConcat(log[..k], log[k..], lo, hi);
    CountNone(log[..k], lo, hi);
    CountAll(log[k..], lo, hi);
  }

  // ---------- the deque ----------

  /** `attempts` is `log` less entries no later than `cutoff`. */
  predicate Recent(attempts: seq<Time>, log: seq<Time>, cutoff: Time) {
    && |attempts| <= |log|
    && attempts == log[|log| - |attempts|..]
    && forall i | 0 <= i < |log| - |attempts| :: log[i] <= cutoff
  }

  lemma RecentPop(attempts: seq<Time>, log: seq<Time>, cutoff: Time)
    requires Recent(attempts, log, cutoff) && attempts != [] && attempts[0] <= cutoff
    ensures Recent(attempts[1..], log, cutoff)
  {
    assert attempts[0] == log[|log| - |attempts|];
  }

  lemma RecentLater(attempts: seq<Time>, log: seq<Time>, cutoff: Time, later: Time)
    requires Recent(attempts, log, cutoff) && cutoff <= later
    ensures Recent(attempts, log, later)
  {
  }

  lemma RecentPush(attempts: seq<Time>, log: seq<Time>, cutoff: Time, now: Time)
    requires Recent(attempts, log, cutoff)
    ensures Recent(attempts + [now], log + [now], cutoff)
  {
  }

  lemma RecentCount(attempts: seq<Time>, log: seq<Time>, lo: Time, hi: Time)
    requires Recent(attempts, log, lo) && UpTo(log, hi)
    requires attempts != [] ==> attempts[0] > lo
    ensures |attempts| == Count(log, lo, hi)
  {
    SuffixCount(log, |log| - |attempts|, lo, hi);
  }

  ghost predicate Consistent(p: Policy, attempts: seq<Time>, log: seq<Time>, last: Time) {
    UpTo(log, last) && InBudget(p, log) && Recent(attempts, log, last - p.window)
  }

  lemma CountAppend(p: Policy, log: seq<Time>, now: Time)
    requires p.window > 0.0
    ensures Recently(p, log + [now], now) == Recently(p, log, now) + 1
  {
    CountConcat(log, [now], now - p.window, now);
    assert Count([now], now - p.window, now) == 1;
  }

  lemma UpToPush(log: seq<Time>, now: Time)
    requires UpTo(log, now)
    ensures UpTo(log + [now], now)
  {
  }

  lemma GrantedStaysInBudget(p: Policy, log: seq<Time>, now: Time)
    requires UpTo(log, now) && InBudget(p, log) && Recently(p, log, now) < p.maximum
    ensures InBudget(p, log + [now])
  {
    GrantStaysInBudget(p, log, now);
  }

  lemma Allowed(p: Policy, attempts: seq<Time>, log: seq<Time>, now: Time)
    requires Consistent(p, attempts, log, now)
    requires |attempts| == Recently(p, log, now) < p.maximum && p.window > 0.0
    ensures Consistent(p, attempts + [now], log + [now], now)
    ensures |attempts + [now]| == Recently(p, log + [now], now)
  {
    hide UpTo, InBudget, Recent, Recently;
    CountAppend(p, log, now);
    UpToPush(log, now);
    RecentPush(attempts, log, now - p.window, now);
    GrantedStaysInBudget(p, log, now);
  }

  class RestartBudget {
    const policy: Policy
    var attempts: seq<Time>
    /** The times of all granted restarts. */
    ghost var log: seq<Time>
    /** When the last failure was recorded. */
    ghost var last: Time

    ghost predicate Valid()
      reads this
    {
      policy.Valid() && Consistent(policy, attempts, log, last)
    }

    /** The clock has not run backwards. */
    ghost predicate Accepts(now: Time)
      reads this
    {
      log != [] ==> last <= now
    }

    constructor (p: Policy)
      requires p.Valid()
      ensures Valid() && policy == p && log == []
    {
      policy := p;
      attempts := [];
      log := [];
    }

    /** Drops the entries that have left the window ending at `now`. */
    method Expire(now: Time)
      requires Valid() && Accepts(now)
      modifies this`attempts
      ensures Consistent(policy, attempts, log, now)
      ensures |attempts| == Recently(policy, log, now)
    {
      var cutoff := now - policy.window;
      if log != [] {
        RecentLater(attempts, log, last - policy.window, cutoff);
      }
      while attempts != [] && attempts[0] <= cutoff
        invariant Recent(attempts, log, cutoff)
        decreases |attempts|
      {
        RecentPop(attempts, log, cutoff);
        attempts := attempts[1..];
      }
      RecentCount(attempts, log, cutoff, now);
    }

    /** A restart is granted exactly when fewer than the maximum were granted in (now - window, now]. */
    method RecordFailure(now: Time) returns (d: Decision)
      requires Valid() && Accepts(now)
      modifies this
      ensures Valid() && last == now
      ensures d.allowed <==> Recently(policy, old(log), now) < policy.maximum
      ensures log == if d.allowed then old(log) + [now] else old(log)
      ensures d.attemptsInWindow == Recently(policy, log, now)
      ensures d.allowed ==> d.delay == Backoff(policy, Recently(policy, old(log), now))
    {
      Expire(now);
      last := now;
      if |attempts| >= policy.maximum {
        return Decision(false, 0, |attempts|);
      }
      Allowed(policy, attempts, log, now);
      attempts := attempts + [now];
      log := log + [now];
      var delayIndex := Min(|attempts| - 1, |policy.backoff| - 1);
      return Decision(true, policy.backoff[delayIndex], |attempts|);
    }
  }

  function Min(a: int, b: int): int {
    if a <= b then a else b
  }

  // ---------- several services, one run ----------

  datatype Failure<N> = Failure(service: N, time: Time)

  function TimesOf<N(==)>(log: seq<Failure<N>>, n: N): seq<Time> {
    if log == [] then []
    else
      var rest := TimesOf(log[..|log| - 1], n);
      if log[|log| - 1].service == n then rest + [log[|log| - 1].time] else rest
  }

  lemma TimesOfAppend<N>(log: seq<Failure<N>>, f: Failure<N>, n: N)
    ensures TimesOf(log + [f], n) == if f.service == n then TimesOf(log, n) + [f.time] else TimesOf(log, n)
  {
    assert (log + [f])[..|log|] == log;
  }

  function Times<N>(log: seq<Failure<N>>): seq<Time> {
    seq(|log|, i requires 0 <= i < |log| => log[i].time)
  }

  function Without<N(==)>(log: seq<Failure<N>>, n: N): seq<Failure<N>> {
    if log == [] then []
    else
      var rest := Without(log[..|log| - 1], n);
      if log[|log| - 1].service == n then rest else rest + [log[|log| - 1]]
  }

  lemma {:induction false} CountSplits<N>(log: seq<Failure<N>>, n: N, lo: Time, hi: Time)
    ensures Count(Times(log), lo, hi) == Count(TimesOf(log, n), lo, hi) + Count(Times(Without(log, n)), lo, hi)
  {
    if log != [] {
      var k := |log| - 1;
      CountSplits(log[..k], n, lo, hi);
      assert Times(log) == Times(log[..k]) + [log[k].time];
      CountConcat(Times(log[..k]), [log[k].time], lo, hi);
      if log[k].service == n {
        CountConcat(TimesOf(log[..k], n), [log[k].time], lo, hi);
      } else {
        assert Times(Without(log, n)) == Times(Without(log[..k], n)) + [log[k].time];
        CountConcat(Times(Without(log[..k], n)), [log[k].time], lo, hi);
      }
    }
  }

  lemma {:induction false} WithoutKeepsOthers<N>(log: seq<Failure<N>>, n: N, m: N)
    ensures TimesOf(Without(log, n), m) == if m == n then [] else TimesOf(log, m)
    ensures forall i | 0 <= i < |Without(log, n)| :: Without(log, n)[i] in log && Without(log, n)[i].service != n
  {
    if log != [] {
      var k := |log| - 1;
      WithoutKeepsOthers(log[..k], n, m);
      var rest := Without(log[..k], n);
      if log[k].service != n {
        assert (rest + [log[k]])[..|rest|] == rest;
      }
    }
  }

  predicate Charged<N>(names: set<N>, log: seq<Failure<N>>) {
    forall i | 0 <= i < |log| :: log[i].service in names
  }

  /** If each of `names` stays within `maximum`, all of them together stay within |names| * maximum. */
  lemma {:induction false} BudgetsAddUp<N>(log: seq<Failure<N>>, names: set<N>, maximum: nat, lo: Time, hi: Time)
    requires Charged(names, log)
    requires forall n | n in names :: Count(TimesOf(log, n), lo, hi) <= maximum
    ensures Count(Times(log), lo, hi) <= |names| * maximum
    decreases |names|
  {
    NotNegative(|names|, maximum);
    if log != [] {
      var n := log[0].service;
      var rest := Without(log, n);
      forall m | m in names - {n} ensures TimesOf(rest, m) == TimesOf(log, m) {
        WithoutKeepsOthers(log, n, m);
      }
      WithoutKeepsOthers(log, n, n);
      BudgetsAddUp(rest, names - {n}, maximum, lo, hi);
      CountSplits(log, n, lo, hi);
      assert |names - {n}| == |names| - 1;
      OneFewer(|names|, maximum);
    }
  }

  lemma NotNegative(n: nat, k: nat)
    ensures n * k >= 0
  {
  }

  lemma OneFewer(n: nat, k: nat)
    requires n > 0
    ensures (n - 1) * k + k == n * k
  {
  }

  /** No window of the run holds more restarts than all the budgets together allow. */
  ghost predicate WithinTotal<N>(p: Policy, restarts: seq<Failure<N>>, services: nat) {
    forall end :: Recently(p, Times(restarts), end) <= services * p.maximum
  }

  ghost predicate SharesInBudget<N(!new)>(p: Policy, names: set<N>, restarts: seq<Failure<N>>) {
    forall n | n in names :: InBudget(p, TimesOf(restarts, n))
  }

  lemma SharesAddUp<N(!new)>(p: Policy, names: set<N>, restarts: seq<Failure<N>>)
    requires SharesInBudget(p, names, restarts) && Charged(names, restarts)
    ensures WithinTotal(p, restarts, |names|)
  {
    forall end ensures Recently(p, Times(restarts), end) <= |names| * p.maximum {
      forall n | n in names ensures Count(TimesOf(restarts, n), end - p.window, end) <= p.maximum {
        assert Recently(p, TimesOf(restarts, n), end) <= p.maximum;
      }
      BudgetsAddUp(restarts, names, p.maximum, end - p.window, end);
    }
  }

  /** The dictionary of budgets of one run. */
  class Ledger<N(==,!new)> {
    const policy: Policy
    var budgets: map<N, RestartBudget>
    /** The restarts granted so far, in order. */
    ghost var restarts: seq<Failure<N>>
    /** When the last failure was charged, or the run began. */
    ghost var last: Time

    ghost predicate Agrees(b: RestartBudget, n: N)
      reads this`restarts, this`last, b
    {
      b.Valid() && b.policy == policy && b.Accepts(last) && b.log == TimesOf(restarts, n)
    }

    /** Each budget's log is its service's share of the restarts. */
    ghost predicate Valid()
      reads this, budgets.Values
    {
      && (forall n, m | n in budgets && m in budgets && n != m :: budgets[n] != budgets[m])
      && (forall n | n in budgets :: Agrees(budgets[n], n))
      && Charged(budgets.Keys, restarts)
    }

    constructor (p: Policy, ghost start: Time)
      ensures Valid() && policy == p && budgets == map[] && restarts == [] && last == start
    {
      policy := p;
      budgets := map[];
      restarts := [];
      last := start;
    }

    method Open(n: N)
      requires policy.Valid() && Valid() && restarts == [] && n !in budgets
      modifies this`budgets
      ensures Valid() && budgets.Keys == old(budgets.Keys) + {n}
      ensures fresh(budgets.Values - old(budgets.Values))
    {
      var b := new RestartBudget(policy);
      assert forall m | m in budgets :: budgets[m] in budgets.Values;
      budgets := budgets[n := b];
      assert Agrees(b, n);
      forall m | m in budgets && m != n ensures Agrees(budgets[m], m) {
        assert old(Agrees(budgets[m], m));
      }
    }

    lemma StaysWithinTotal()
      requires Valid()
      ensures WithinTotal(policy, restarts, |budgets.Keys|)
    {
      forall n | n in budgets.Keys ensures InBudget(policy, TimesOf(restarts, n)) {
        assert Agrees(budgets[n], n);
      }
      SharesAddUp(policy, budgets.Keys, restarts);
    }

    method Record(b: RestartBudget, n: N, now: Time) returns (d: Decision)
      requires Agrees(b, n) && last <= now
      modifies this`restarts, this`last, b
      ensures Agrees(b, n) && last == now
      ensures d.allowed <==> Recently(policy, TimesOf(old(restarts), n), now) < policy.maximum
      ensures d.allowed ==> d.delay == Backoff(policy, Recently(policy, TimesOf(old(restarts), n), now))
      ensures restarts == if d.allowed then old(restarts) + [Failure(n, now)] else old(restarts)
      ensures forall m | m != n :: TimesOf(restarts, m) == TimesOf(old(restarts), m)
    {
      d := b.RecordFailure(now);
      last := now;
      if d.allowed {
        forall m ensures TimesOf(restarts + [Failure(n, now)], m) ==
                         if m == n then TimesOf(restarts, m) + [now] else TimesOf(restarts, m)
        {
          TimesOfAppend(restarts, Failure(n, now), m);
        }
        restarts := restarts + [Failure(n, now)];
      }
    }

    /** Charges a failure to one service; every other budget still describes its own share. */
    method Charge(n: N, now: Time) returns (d: Decision)
      requires Valid() && last <= now && n in budgets
      modifies this`restarts, this`last, budgets.Values
      ensures Valid() && last == now
      ensures d.allowed <==> Recently(policy, TimesOf(old(restarts), n), now) < policy.maximum
      ensures d.allowed ==> d.delay == Backoff(policy, Recently(policy, TimesOf(old(restarts), n), now))
      ensures restarts == if d.allowed then old(restarts) + [Failure(n, now)] else old(restarts)
    {
      assert Agrees(budgets[n], n);
      d := Record(budgets[n], n, now);
      forall m | m in budgets && m != n ensures Agrees(budgets[m], m) {
        assert old(Agrees(budgets[m], m));
      }
    }
  }
}
