/**
 Changing and resetting users runs in concurrent transactions. Each locks the user's row, then one advisory
 lock, counts the administrators in the committed rows, writes, and commits or aborts. Before it commits, a change
 rebuilds the table of readable documents and both append an audit row: the foreign keys take a shared lock on the
 rows of the users named there. All locks are held to the end of the transaction. Any interleaving leaves an active
 administrator; but two transactions may wait for each other, and it is proved exactly when.
 */
module FinalAdmin {

  import opened Wrappers
  import opened Sets

  type Id = int

  datatype Status = Pending | Active | Disabled | Deleted

  datatype User = User(isAdmin: bool, status: Status, deletedAt: bool)

  type Users = map<Id, User>

  datatype Request = SetUser(user: Id, admin: bool, status: Status) | ResetUser(user: Id)

  /**
   How far a transaction has come: `current` is the row as it was when its lock was granted, and `owed` the users
   whose rows the foreign keys of the rebuild, or of the audit row after it, have yet to lock.
   */
  datatype Phase =
    | Began
    | HoldsRow(current: User)
    | HoldsBoth(current: User)
    | Wrote(next: User, owed: seq<Id>, auditing: bool)

  /** Whether the actor's session is still good, and the rows on which foreign keys have taken a shared lock. */
  datatype Transaction = Transaction(actor: Id, request: Request, phase: Phase, signedIn: bool, shared: set<Id>)

  datatype State = State(users: Users, running: map<Id, Transaction>, rowLock: map<Id, Id>, advisory: Option<Id>)

  datatype Event =
    | Begin(t: Id, actor: Id, request: Request)
    | LockRow(t: Id)
    | LockAdvisory(t: Id)
    | CheckAndWrite(t: Id, readers: seq<Id>)
    | Audit(t: Id)
    | Share(t: Id)
    | Commit(t: Id)
    | Abort(t: Id)
    | Activate(user: Id)
    | Insert(user: Id, row: User)
    | SignOut(t: Id)

  predicate IsActiveAdmin(u: User) {
    u.isAdmin && u.status.Active? && !u.deletedAt
  }

  function ActiveAdmins(users: Users): set<Id> {
    set i | i in users && IsActiveAdmin(users[i])
  }

  /** Whether the request takes an active administrator away. */
  predicate Demotes(request: Request, current: User) {
    && current.isAdmin && current.status.Active?
    && match request
       case SetUser(_, admin, status) => !admin || !status.Active?
       case ResetUser(_) => true
  }

  predicate IsRefused(users: Users, request: Request, current: User) {
    || (request.SetUser? && request.status.Pending?)
    || current.status.Deleted? || (request.ResetUser? && current.deletedAt)
    || (Demotes(request, current) && |ActiveAdmins(users)| <= 1)
  }

  function Written(request: Request, current: User): User {
    match request
    case SetUser(_, admin, status) => User(admin, status, status.Deleted?)
    case ResetUser(_) => current.(status := Pending)
  }

  /** Whose documents the rebuild may list: active members. A reset does not rebuild. */
  predicate MayRead(users: Users, request: Request, readers: seq<Id>) {
    && (request.ResetUser? ==> readers == [])
    && forall i | 0 <= i < |readers| ::
         readers[i] in users && users[readers[i]].status.Active? && !users[readers[i]].isAdmin
         && !users[readers[i]].deletedAt
  }

  /** The audit row names the actor, unless the session is no longer good, as after a change of the actor's own row. */
  function Named(x: Transaction): seq<Id> {
    if x.signedIn && x.actor != x.request.user then [x.actor] else []
  }

  predicate LockedByOther(s: State, t: Id, u: Id) {
    u in s.rowLock && s.rowLock[u] != t
  }

  predicate SharedByOther(s: State, t: Id, u: Id) {
    exists x | x in s.running :: x != t && u in s.running[x].shared
  }

  function Ended(s: State, t: Id): State {
    State(s.users, s.running - {t}, map u | u in s.rowLock && s.rowLock[u] != t :: s.rowLock[u],
          if s.advisory == Some(t) then None else s.advisory)
  }

  function Advance(s: State, t: Id, phase: Phase): State
    requires t in s.running
  {
    s.(running := s.running[t := s.running[t].(phase := phase)])
  }

  /** The sessions of `u` are revoked. */
  function Revoked(s: State, u: Id): State {
    s.(running := map x | x in s.running ::
         if s.running[x].actor == u then s.running[x].(signedIn := false) else s.running[x])
  }

  /** An event that is not enabled, such as asking for a lock that is taken, leaves the state as it is. */
  function Step(s: State, e: Event): State {
    match e
    case Begin(t, actor, request) =>
      if t in s.running || actor !in s.users || !IsActiveAdmin(s.users[actor]) then s
      else s.(running := s.running[t := Transaction(actor, request, Began, true, {})])
    case LockRow(t) =>
      if t !in s.running || !s.running[t].phase.Began? || s.running[t].request.user in s.rowLock then s
      else if SharedByOther(s, t, s.running[t].request.user) then s
      else
        var u := s.running[t].request.user;
        if u !in s.users then Ended(s, t) else Advance(s, t, HoldsRow(s.users[u])).(rowLock := s.rowLock[u := t])
    case LockAdvisory(t) =>
      if t !in s.running || !s.running[t].phase.HoldsRow? || s.advisory.Some? then s
      else Advance(s, t, HoldsBoth(s.running[t].phase.current)).(advisory := Some(t))
    case CheckAndWrite(t, readers) =>
      if t !in s.running || !s.running[t].phase.HoldsBoth? then s
      else
        var request, current := s.running[t].request, s.running[t].phase.current;
        if IsRefused(s.users, request, current) then Ended(s, t)
        else
          var next := Written(request, current);
          if !MayRead(s.users[request.user := next], request, readers) then s
          else Advance(s, t, Wrote(next, readers, false))
    case Audit(t) =>
      if t !in s.running || !s.running[t].phase.Wrote? || s.running[t].phase.auditing || s.running[t].phase.owed != []
      then s
      else Advance(s, t, Wrote(s.running[t].phase.next, Named(s.running[t]), true))
    case Share(t) =>
      if t !in s.running || !s.running[t].phase.Wrote? || s.running[t].phase.owed == [] then s
      else
        var x := s.running[t];
        if LockedByOther(s, t, x.phase.owed[0]) then s
        else
          var phase := Wrote(x.phase.next, x.phase.owed[1..], x.phase.auditing);
          s.(running := s.running[t := x.(phase := phase, shared := x.shared + {x.phase.owed[0]})])
    case Commit(t) =>
      if t !in s.running || !s.running[t].phase.Wrote? || !s.running[t].phase.auditing || s.running[t].phase.owed != []
      then s
      else
        var u := s.running[t].request.user;
        Revoked(Ended(s.(users := s.users[u := s.running[t].phase.next]), t), u)
    case Abort(t) => if t in s.running then Ended(s, t) else s
    case Activate(u) =>
      if u !in s.users || u in s.rowLock || !s.users[u].status.Pending? then s
      else s.(users := s.users[u := s.users[u].(status := Active)])
    case Insert(u, row) => if u in s.users then s else s.(users := s.users[u := row])
    case SignOut(t) =>
      if t !in s.running then s else s.(running := s.running[t := s.running[t].(signedIn := false)])
  }

  function Run(s: State, events: seq<Event>): State {
    if events == [] then s else Step(Run(s, events[..|events| - 1]), events[|events| - 1])
  }

  // ---------- the invariant ----------

  predicate HoldsRowLock(s: State, t: Id, x: Transaction) {
    && x.request.user in s.users && x.request.user in s.rowLock && s.rowLock[x.request.user] == t
    && match x.phase
       case Began => true
       case HoldsRow(current) => current == s.users[x.request.user]
       case HoldsBoth(current) => current == s.users[x.request.user]
       case Wrote(next, _, _) => next == Written(x.request, s.users[x.request.user])
  }

  ghost predicate SomeoneElse(users: Users, u: Id) {
    exists v :: v in ActiveAdmins(users) && v != u
  }

  /** A written row, not yet committed, leaves an administrator and does not revive a deleted user. */
  ghost predicate SafeToCommit(users: Users, u: Id, next: User)
    requires u in users
  {
    && !users[u].status.Deleted?
    && (IsActiveAdmin(users[u]) && !IsActiveAdmin(next) ==> SomeoneElse(users, u))
  }

  ghost predicate TransactionOk(s: State, t: Id, x: Transaction) {
    && (!x.phase.Began? ==> HoldsRowLock(s, t, x))
    && (x.phase.HoldsBoth? || x.phase.Wrote? || x.shared != {} ==> s.advisory == Some(t))
    && (x.phase.Wrote? ==> SafeToCommit(s.users, x.request.user, x.phase.next))
  }

  predicate LocksOwned(s: State) {
    && (forall u | u in s.rowLock :: && s.rowLock[u] in s.running && !s.running[s.rowLock[u]].phase.Began?
                                     && s.running[s.rowLock[u]].request.user == u)
    && (s.advisory.Some? ==> && s.advisory.value in s.running
                             && (|| s.running[s.advisory.value].phase.HoldsBoth?
                                 || s.running[s.advisory.value].phase.Wrote?))
  }

  ghost predicate Inv(s: State) {
    && ActiveAdmins(s.users) != {}
    && (forall t | t in s.running :: TransactionOk(s, t, s.running[t]))
    && LocksOwned(s)
  }

  lemma MoreThanOne(users: Users, u: Id)
    requires |ActiveAdmins(users)| > 1
    ensures SomeoneElse(users, u)
  {
    var others := ActiveAdmins(users) - {u};
    if others == {} {
      assert ActiveAdmins(users) <= {u};
      SubsetSize(ActiveAdmins(users), {u});
    }
    var v := AnyOf(others);
    assert v in ActiveAdmins(users);
  }

  lemma EndedKeepsInv(s: State, t: Id)
    requires Inv(s) && t in s.running
    ensures Inv(Ended(s, t))
  {
    var s' := Ended(s, t);
    forall x | x in s'.running ensures TransactionOk(s', x, s'.running[x]) {
      assert TransactionOk(s, x, s.running[x]);
    }
  }

  /** Writing a row that nobody has locked, without losing an administrator. */
  lemma RowChanged(s: State, u: Id, row: User)
    requires Inv(s) && u !in s.rowLock && (u in s.users && IsActiveAdmin(s.users[u]) ==> IsActiveAdmin(row))
    ensures Inv(s.(users := s.users[u := row]))
  {
    var s' := s.(users := s.users[u := row]);
    assert ActiveAdmins(s.users) <= ActiveAdmins(s'.users);
    forall x | x in s'.running ensures TransactionOk(s', x, s'.running[x]) {
      assert TransactionOk(s, x, s.running[x]);
      var w := s.running[x].request.user;
      if s.running[x].phase.Wrote? && SomeoneElse(s.users, w) {
        var v :| v in ActiveAdmins(s.users) && v != w;
        assert v in ActiveAdmins(s'.users);
      }
    }
  }

  lemma RevokedKeepsInv(s: State, u: Id)
    requires Inv(s)
    ensures Inv(Revoked(s, u))
  {
    var s' := Revoked(s, u);
    forall x | x in s'.running ensures TransactionOk(s', x, s'.running[x]) {
      assert TransactionOk(s, x, s.running[x]);
    }
  }

  lemma WrittenKeepsInv(s: State, t: Id)
    requires Inv(s) && t in s.running && s.running[t].phase.Wrote?
    ensures Inv(Ended(s.(users := s.users[s.running[t].request.user := s.running[t].phase.next]), t))
  {
    var u, next := s.running[t].request.user, s.running[t].phase.next;
    assert TransactionOk(s, t, s.running[t]);
    var users := s.users[u := next];
    if IsActiveAdmin(next) {
      assert u in ActiveAdmins(users);
    } else {
      var v := if SomeoneElse(s.users, u) then Other(s.users, u) else AnyOf(ActiveAdmins(s.users));
      assert v in ActiveAdmins(users);
    }
    var ended := Ended(s, t);
    EndedKeepsInv(s, t);
    var s' := ended.(users := users);
    forall x | x in s'.running ensures TransactionOk(s', x, s'.running[x]) {
      assert TransactionOk(s, x, s.running[x]);
      assert TransactionOk(ended, x, ended.running[x]);
    }
  }

  lemma CommitKeepsInv(s: State, t: Id)
    requires Inv(s)
    ensures Inv(Step(s, Commit(t)))
  {
    hide Inv;
    if t in s.running && s.running[t].phase.Wrote? {
      var u := s.running[t].request.user;
      WrittenKeepsInv(s, t);
      RevokedKeepsInv(Ended(s.(users := s.users[u := s.running[t].phase.next]), t), u);
    }
  }

  ghost function Other(users: Users, u: Id): (v: Id)
    requires SomeoneElse(users, u)
    ensures v in ActiveAdmins(users) && v != u
  {
    var v :| v in ActiveAdmins(users) && v != u;
    v
  }

  lemma AdvanceKeepsInv(s: State, e: Event)
    requires Inv(s) && !e.Commit? && !e.Abort? && !e.Activate? && !e.Insert?
    ensures Inv(Step(s, e))
  {
    var s' := Step(s, e);
    if s' == s || s' == Ended(s, e.t) {
      if e.t in s.running { EndedKeepsInv(s, e.t); }
    } else {
      if e.t in s.running { assert TransactionOk(s, e.t, s.running[e.t]); }
      if e.CheckAndWrite? {
        if |ActiveAdmins(s.users)| > 1 { MoreThanOne(s.users, s.running[e.t].request.user); }
      }
      forall x | x in s'.running ensures TransactionOk(s', x, s'.running[x]) {
        if x in s.running { assert TransactionOk(s, x, s.running[x]); }
      }
    }
  }

  lemma StepKeepsInv(s: State, e: Event)
    requires Inv(s)
    ensures Inv(Step(s, e))
  {
    match e
    case Commit(t) => CommitKeepsInv(s, t);
    case Abort(t) => if t in s.running { EndedKeepsInv(s, t); }
    case Activate(u) => if Step(s, e) != s { RowChanged(s, u, s.users[u].(status := Active)); }
    case Insert(u, row) =>
      if u !in s.users {
        assert u in s.rowLock ==> TransactionOk(s, s.rowLock[u], s.running[s.rowLock[u]]);
        RowChanged(s, u, row);
      }
    case _ => AdvanceKeepsInv(s, e);
  }

  /** The start of a deployment: users, at least one active administrator, nothing running. */
  predicate Initial(s: State) {
    s.running == map[] && s.rowLock == map[] && s.advisory.None? && ActiveAdmins(s.users) != {}
  }

  lemma {:induction false} RunKeepsInv(s: State, events: seq<Event>)
    requires Initial(s)
    ensures Inv(Run(s, events))
  {
    if events != [] {
      RunKeepsInv(s, events[..|events| - 1]);
      StepKeepsInv(Run(s, events[..|events| - 1]), events[|events| - 1]);
    }
  }

  ghost predicate SomeoneAdministers(users: Users) {
    exists u :: u in users && users[u].isAdmin && users[u].status.Active? && !users[u].deletedAt
  }

  /** Every interleaving, with transactions aborting anywhere, leaves an active administrator. */
  lemma AnAdministratorRemains(s: State, events: seq<Event>)
    requires Initial(s)
    ensures SomeoneAdministers(Run(s, events).users)
  {
    RunKeepsInv(s, events);
    var users := Run(s, events).users;
    var u := AnyOf(ActiveAdmins(users));
    assert u in users && users[u].isAdmin && users[u].status.Active? && !users[u].deletedAt;
  }

  /** A valid change of a user that is not deleted is refused exactly when it would leave no administrator. */
  lemma RefusedExactlyWhenNeeded(users: Users, request: Request)
    requires request.user in users && !users[request.user].status.Deleted? && !users[request.user].deletedAt
    requires ActiveAdmins(users) != {} && !(request.SetUser? && request.status.Pending?)
    ensures var u, current := request.user, users[request.user];
            IsRefused(users, request, current) <==> ActiveAdmins(users[u := Written(request, current)]) == {}
  {
    var u, current := request.user, users[request.user];
    var after := users[u := Written(request, current)];
    if Demotes(request, current) {
      assert u in ActiveAdmins(users);
      if |ActiveAdmins(users)| <= 1 {
        OnlyMember(ActiveAdmins(users), u);
        forall v ensures v !in ActiveAdmins(after) {
          assert v in ActiveAdmins(after) && v != u ==> v in ActiveAdmins(users);
        }
      } else {
        MoreThanOne(users, u);
        assert Other(users, u) in ActiveAdmins(after);
      }
    } else {
      var v := AnyOf(ActiveAdmins(users));
      assert v in ActiveAdmins(after);
    }
  }

  /** What a request that is not refused makes of the user's row. */
  predicate CarriesOut(request: Request, before: User, after: User) {
    match request
    case SetUser(_, admin, status) =>
      after.isAdmin == admin && after.status == status && (after.deletedAt <==> status.Deleted?)
    case ResetUser(_) => after.isAdmin == before.isAdmin && after.status.Pending? && after.deletedAt == before.deletedAt
  }

  /** Under any interleaving, a row changes only as a commit for it requests, or when it is activated. */
  lemma OnlyRequestsChange(s: State, e: Event, u: Id)
    requires Inv(s) && u in s.users
    ensures var after := Step(s, e).users;
            && u in after
            && (after[u] == s.users[u]
                || (e.Commit? && e.t in s.running && s.running[e.t].request.user == u
                    && CarriesOut(s.running[e.t].request, s.users[u], after[u]))
                || (e.Activate? && e.user == u && s.users[u] == User(s.users[u].isAdmin, Pending, s.users[u].deletedAt)
                    && after[u] == User(s.users[u].isAdmin, Active, s.users[u].deletedAt)))
  {
    if e.Commit? && e.t in s.running { assert TransactionOk(s, e.t, s.running[e.t]); }
  }

  /** Only an active administrator gets as far as to begin. */
  lemma OnlyAdministratorsBegin(s: State, t: Id, actor: Id, request: Request)
    requires t !in s.running
    ensures t in Step(s, Begin(t, actor, request)).running <==>
              actor in s.users && s.users[actor] == User(true, Active, false)
  {
  }

  /** A commit carries its request out, and ends the user's sessions, and only them. */
  lemma CommitCarriesOut(s: State, t: Id)
    requires Inv(s) && t in s.running && Step(s, Commit(t)) != s
    ensures var u := s.running[t].request.user;
            && u in s.users && CarriesOut(s.running[t].request, s.users[u], Step(s, Commit(t)).users[u])
            && Step(s, Commit(t)).running.Keys == s.running.Keys - {t}
            && forall x | x in s.running && x != t ::
                 Step(s, Commit(t)).running[x].signedIn == (s.running[x].signedIn && s.running[x].actor != u)
  {
    assert TransactionOk(s, t, s.running[t]);
  }

  function ShareMany(s: State, t: Id, n: nat): State {
    if n == 0 then s else Step(ShareMany(s, t, n - 1), Share(t))
  }

  /** Nobody is in the way of the foreign keys. */
  lemma {:induction false} SharesAlone(s: State, t: Id, n: nat)
    requires t in s.running && s.running[t].phase.Wrote? && n <= |s.running[t].phase.owed|
    requires s.running.Keys == {t} && forall u | u in s.rowLock :: s.rowLock[u] == t
    ensures var s' := ShareMany(s, t, n);
            && s'.users == s.users && s'.rowLock == s.rowLock && s'.advisory == s.advisory && s'.running.Keys == {t}
            && s'.running[t].request == s.running[t].request
            && s'.running[t].phase == s.running[t].phase.(owed := s.running[t].phase.owed[n..])
  {
    if n > 0 {
      SharesAlone(s, t, n - 1);
      assert s.running[t].phase.owed[n - 1..][1..] == s.running[t].phase.owed[n..];
    }
  }

  /** What one transaction does from beginning to end. */
  function Whole(s: State, t: Id, actor: Id, request: Request, readers: seq<Id>): State {
    var both := Step(Step(Step(s, Begin(t, actor, request)), LockRow(t)), LockAdvisory(t));
    var wrote := Step(both, CheckAndWrite(t, readers));
    Step(Step(Step(ShareMany(wrote, t, |readers|), Audit(t)), Share(t)), Commit(t))
  }

  lemma RefusedShares(s: State, t: Id, n: nat)
    requires t !in s.running
    ensures ShareMany(s, t, n) == s
  {
  }

  /** With nobody else around, the request is carried out or refused, and no lock is left behind. */
  lemma AloneItIsDecided(s: State, t: Id, actor: Id, request: Request, readers: seq<Id>)
    requires Initial(s) && actor in s.users && IsActiveAdmin(s.users[actor]) && request.user in s.users
    requires MayRead(s.users[request.user := Written(request, s.users[request.user])], request, readers)
    ensures var end := Whole(s, t, actor, request, readers);
            && end.running == map[] && end.rowLock == map[] && end.advisory.None? && end.users.Keys == s.users.Keys
            && (forall v | v in s.users && v != request.user :: end.users[v] == s.users[v])
            && var current := s.users[request.user];
               var keeps := request.SetUser? && request.admin && request.status.Active?;
               if || (request.SetUser? && request.status.Pending?)
                  || current.status.Deleted? || (request.ResetUser? && current.deletedAt)
                  || (current.isAdmin && current.status.Active? && !keeps && |ActiveAdmins(s.users)| <= 1)
               then end.users[request.user] == current
               else CarriesOut(request, current, end.users[request.user])
  {
    AloneItLocks(s, t, actor, request);
    AloneItWrites(State(s.users, map[t := Transaction(actor, request, HoldsBoth(s.users[request.user]), true, {})],
                        map[request.user := t], Some(t)), t, readers);
  }

  /** From the check on. */
  lemma AloneItWrites(both: State, t: Id, readers: seq<Id>)
    requires both.running.Keys == {t} && both.running[t].phase.HoldsBoth? && both.running[t].request.user in both.users
    requires both.rowLock == map[both.running[t].request.user := t] && both.advisory == Some(t)
    requires var request, current := both.running[t].request, both.running[t].phase.current;
             MayRead(both.users[request.user := Written(request, current)], request, readers)
    ensures var request, current := both.running[t].request, both.running[t].phase.current;
            var wrote := Step(both, CheckAndWrite(t, readers));
            var end := Step(Step(Step(ShareMany(wrote, t, |readers|), Audit(t)), Share(t)), Commit(t));
            && end.running == map[] && end.rowLock == map[] && end.advisory.None?
            && end.users == if IsRefused(both.users, request, current) then both.users
                            else both.users[request.user := Written(request, current)]
  {
    var wrote := Step(both, CheckAndWrite(t, readers));
    if IsRefused(both.users, both.running[t].request, both.running[t].phase.current) {
      RefusedShares(wrote, t, |readers|);
    } else {
      SharesAlone(wrote, t, |readers|);
    }
  }

  lemma AloneItLocks(s: State, t: Id, actor: Id, request: Request)
    requires Initial(s) && actor in s.users && IsActiveAdmin(s.users[actor]) && request.user in s.users
    ensures Step(Step(Step(s, Begin(t, actor, request)), LockRow(t)), LockAdvisory(t))
         == State(s.users, map[t := Transaction(actor, request, HoldsBoth(s.users[request.user]), true, {})],
                  map[request.user := t], Some(t))
  {
  }

  /** A deleted user's committed row never changes again. */
  lemma DeletedIsFinal(s: State, e: Event, u: Id)
    requires Inv(s) && u in s.users && s.users[u].status.Deleted?
    ensures u in Step(s, e).users && Step(s, e).users[u] == s.users[u]
  {
    if e.Commit? && e.t in s.running && s.running[e.t].phase.Wrote? {
      assert TransactionOk(s, e.t, s.running[e.t]);
    }
  }

  // ---------- who waits for whom ----------

  /** `x` holds a lock for which `t` waits. */
  predicate Waits(s: State, t: Id, x: Id) {
    && t in s.running && x in s.running && t != x
    && var y := s.running[t];
       match y.phase
       case Began =>
         (y.request.user in s.rowLock && s.rowLock[y.request.user] == x) || y.request.user in s.running[x].shared
       case HoldsRow(_) => s.advisory == Some(x)
       case HoldsBoth(_) => false
       case Wrote(_, owed, _) => owed != [] && owed[0] in s.rowLock && s.rowLock[owed[0]] == x
  }

  predicate IsCycle(s: State, c: seq<Id>) {
    |c| >= 2 && c[0] == c[|c| - 1] && forall k | 0 <= k < |c| - 1 :: Waits(s, c[k], c[k + 1])
  }

  ghost predicate Deadlocked(s: State) {
    exists c :: IsCycle(s, c)
  }

  /** The holder of the advisory lock wants the row of a user whom another transaction is about to change. */
  predicate HolderIsBlocked(s: State) {
    && s.advisory.Some? && s.advisory.value in s.running
    && var phase := s.running[s.advisory.value].phase;
       phase.Wrote? && phase.owed != [] && LockedByOther(s, s.advisory.value, phase.owed[0])
  }

  /** Nobody waits for a transaction that has no lock. */
  lemma WaitedForHasLock(s: State, t: Id, x: Id)
    requires Inv(s) && Waits(s, t, x)
    ensures !s.running[x].phase.Began?
  {
    assert TransactionOk(s, x, s.running[x]);
    var y := s.running[t];
    match y.phase
    case Began =>
      var u := y.request.user;
      if u in s.rowLock && s.rowLock[u] == x {
        assert !s.running[s.rowLock[u]].phase.Began?;
      } else {
        assert u in s.running[x].shared;
        assert s.advisory == Some(x);
      }
    case HoldsRow(_) =>
    case HoldsBoth(_) =>
    case Wrote(_, owed, _) =>
      var u := owed[0];
      assert u in s.rowLock && s.rowLock[u] == x;
      assert LocksOwned(s);
  }

  /** Only transactions that wait for the advisory lock, and its holder, can be waited for and wait in turn. */
  lemma WaitedForAndWaiting(s: State, t: Id, x: Id, y: Id)
    requires Inv(s) && Waits(s, t, x) && Waits(s, x, y)
    ensures (s.running[x].phase.HoldsRow? && s.advisory == Some(y)) || (s.advisory == Some(x) && HolderIsBlocked(s))
  {
    assert TransactionOk(s, x, s.running[x]);
    WaitedForHasLock(s, t, x);
  }

  lemma CycleIsBlocked(s: State, c: seq<Id>)
    requires Inv(s) && IsCycle(s, c)
    ensures HolderIsBlocked(s)
  {
    assert Waits(s, c[0], c[1]);
    assert |c| > 2;
    assert Waits(s, c[1], c[2]);
    var after := if |c| > 3 then c[3] else c[1];
    assert Waits(s, c[2], after);
    WaitedForAndWaiting(s, c[0], c[1], c[2]);
    WaitedForAndWaiting(s, c[1], c[2], after);
  }

  /** There is a deadlock exactly if the holder of the advisory lock is blocked, and then it is one of two. */
  lemma DeadlockedExactly(s: State)
    requires Inv(s)
    ensures Deadlocked(s) <==> HolderIsBlocked(s)
  {
    if c :| IsCycle(s, c) {
      CycleIsBlocked(s, c);
    }
    if HolderIsBlocked(s) {
      var t := s.advisory.value;
      var x := s.rowLock[s.running[t].phase.owed[0]];
      assert TransactionOk(s, x, s.running[x]) && s.running[x].phase.HoldsRow?;
      assert Waits(s, t, x) && Waits(s, x, t);
      var c := [t, x, t];
      assert c[0] == t && c[1] == x && c[2] == t;
      assert IsCycle(s, c);
    }
  }

  /** Without a deadlock some transaction can go on. */
  lemma SomeoneCanGoOn(s: State) returns (e: Event)
    requires Inv(s) && s.running != map[] && !HolderIsBlocked(s)
    ensures (e.LockRow? || e.LockAdvisory? || e.CheckAndWrite? || e.Audit? || e.Share? || e.Commit?) && Step(s, e) != s
  {
    if s.advisory.Some? {
      var t := s.advisory.value;
      e := match s.running[t].phase
           case HoldsBoth(_) => CheckAndWrite(t, [])
           case Wrote(_, owed, auditing) => if owed != [] then Share(t) else if auditing then Commit(t) else Audit(t)
           case _ => Commit(t);
      assert Step(s, e).running.Keys != s.running.Keys || Step(s, e).running[t] != s.running[t];
    } else if t :| t in s.running && s.running[t].phase.HoldsRow? {
      e := LockAdvisory(t);
    } else {
      var t := AnyOf(s.running.Keys);
      assert TransactionOk(s, t, s.running[t]);
      e := LockRow(t);
      var u := s.running[t].request.user;
      assert forall x | x in s.running :: TransactionOk(s, x, s.running[x]) && s.running[x].phase.Began?;
      assert u !in s.rowLock && !SharedByOther(s, t, u);
      assert Step(s, e).running.Keys != s.running.Keys || Step(s, e).running[t] != s.running[t];
    }
  }

  /** Nothing but aborting one of the two gets them going again, and that does. */
  lemma DeadlockLasts(s: State, e: Event)
    requires Inv(s) && HolderIsBlocked(s)
    ensures var t := s.advisory.value; var x := s.rowLock[s.running[t].phase.owed[0]];
            if e == Abort(t) || e == Abort(x) then !HolderIsBlocked(Step(s, e))
            else && HolderIsBlocked(Step(s, e)) && Step(s, e).advisory == Some(t)
                 && t in Step(s, e).running && Step(s, e).running[t].phase == s.running[t].phase
                 && x in Step(s, e).running && Step(s, e).running[x].phase == s.running[x].phase
  {
    var t := s.advisory.value;
    var x := s.rowLock[s.running[t].phase.owed[0]];
    assert TransactionOk(s, t, s.running[t]) && TransactionOk(s, x, s.running[x]);
    if !e.Activate? && !e.Insert? && e.t in s.running { assert TransactionOk(s, e.t, s.running[e.t]); }
  }

  const ADMIN := User(true, Active, false)

  function TwoAdministrators(): State {
    State(map[1 := ADMIN, 2 := ADMIN], map[], map[], None)
  }

  /** The administrator 1 changes the user 2, and 2 changes 1: both have locked their rows. */
  lemma BothLockRows(t: Id, x: Id) returns (events: seq<Event>)
    requires t != x
    ensures var s := Run(TwoAdministrators(), events);
            && s.users == TwoAdministrators().users && s.rowLock == map[2 := t, 1 := x] && s.advisory.None?
            && s.running == map[t := Transaction(1, SetUser(2, true, Active), HoldsRow(ADMIN), true, {}),
                                x := Transaction(2, SetUser(1, true, Active), HoldsRow(ADMIN), true, {})]
  {
    var first := [Begin(t, 1, SetUser(2, true, Active)), Begin(x, 2, SetUser(1, true, Active))];
    events := first + [LockRow(t), LockRow(x)];
    RunTwo(TwoAdministrators(), [], first[0], first[1]);
    RunTwo(TwoAdministrators(), first, LockRow(t), LockRow(x));
    assert [] + [first[0], first[1]] == first;
  }

  /** Then one goes on until its audit row is to name 1, whose row the other one has locked. */
  lemma DeadlockIsReached(t: Id, x: Id) returns (events: seq<Event>)
    requires t != x
    ensures Initial(TwoAdministrators()) && Deadlocked(Run(TwoAdministrators(), events))
  {
    var s := TwoAdministrators();
    assert 1 in ActiveAdmins(s.users);
    var rows := BothLockRows(t, x);
    var wrote := rows + [LockAdvisory(t), CheckAndWrite(t, [])];
    RunTwo(s, rows, LockAdvisory(t), CheckAndWrite(t, []));
    events := wrote + [Audit(t), Share(t)];
    RunTwo(s, wrote, Audit(t), Share(t));
    OneGoesOn(Run(s, rows), t, x);
    RunKeepsInv(s, events);
    DeadlockedExactly(Run(s, events));
  }

  lemma OneGoesOn(s: State, t: Id, x: Id)
    requires t in s.running && x in s.running && t != x && s.advisory.None? && s.rowLock == map[2 := t, 1 := x]
    requires s.running[t] == Transaction(1, SetUser(2, true, Active), HoldsRow(ADMIN), true, {})
    ensures HolderIsBlocked(Step(Step(Step(Step(s, LockAdvisory(t)), CheckAndWrite(t, [])), Audit(t)), Share(t)))
  {
  }

  lemma RunTwo(s: State, events: seq<Event>, a: Event, b: Event)
    ensures Run(s, events + [a, b]) == Step(Step(Run(s, events), a), b)
  {
    var all := events + [a, b];
    assert all[..|all| - 1] == events + [a] && (events + [a])[..|events|] == events;
  }
}
