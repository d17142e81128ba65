/**
 Folder permissions: grants are inherited upward through the folder tree as far as the nearest
 access boundary. The per-folder check walks up from one folder; the impact preview closes over all
 folders at once, before and after an operation that has not been carried out yet.
 */
module AccessControl {

  import opened Wrappers
  import opened Sets

  type Id = int

  datatype Node = Node(parent: Option<Id>, isFolder: bool, boundary: bool)

  type Forest = map<Id, Node>

  datatype Principal = User(id: Id) | Team(id: Id)

  datatype Grant = Grant(node: Id, principal: Principal)

  datatype Account = Account(isAdmin: bool, isActive: bool)

  datatype Acl = Acl(nodes: Forest, readGrants: set<Grant>, createGrants: set<Grant>,
                     members: set<(Id, Id)>, teams: map<Id, bool>, users: map<Id, Account>)

  /** A rank that falls along every parent link: the tree has no cycle. */
  predicate IsRank(f: Forest, rank: map<Id, nat>) {
    && rank.Keys == f.Keys
    && forall n | n in f && f[n].parent.Some? && f[n].parent.value in f :: rank[f[n].parent.value] < rank[n]
  }

  // ---------- the meaning of inheritance ----------

  /** A climb from child to parent that stops at the first boundary it meets. */
  predicate Climbs(f: Forest, path: seq<Id>) {
    && path != [] && (forall k | 0 <= k < |path| :: path[k] in f)
    && forall k | 0 <= k < |path| - 1 :: !f[path[k]].boundary && f[path[k]].parent == Some(path[k + 1])
  }

  predicate Joins(f: Forest, path: seq<Id>, n: Id, a: Id) {
    Climbs(f, path) && path[0] == n && path[|path| - 1] == a
  }

  /** What is granted on `a` reaches `n`. */
  ghost predicate Sees(f: Forest, n: Id, a: Id) {
    exists path :: Joins(f, path, n, a)
  }

  lemma SeesItself(f: Forest, n: Id)
    requires n in f
    ensures Sees(f, n, n)
  {
    assert Joins(f, [n], n, n);
  }

  lemma SeesFurther(f: Forest, n: Id, a: Id, b: Id)
    requires Sees(f, n, a) && !f[a].boundary && f[a].parent == Some(b) && b in f
    ensures Sees(f, n, b)
  {
    var path :| Joins(f, path, n, a);
    assert Joins(f, path + [b], n, b);
  }

  /** The first step of a climb. */
  lemma SeesByStep(f: Forest, n: Id, a: Id)
    ensures Sees(f, n, a) <==>
              n in f && (n == a || (!f[n].boundary && f[n].parent.Some? && Sees(f, f[n].parent.value, a)))
  {
    if path :| Joins(f, path, n, a) {
      if n != a {
        assert Joins(f, path[1..], path[1], a);
      }
    }
    if n in f && n == a {
      SeesItself(f, n);
    } else if n in f && !f[n].boundary && f[n].parent.Some? && Sees(f, f[n].parent.value, a) {
      var path :| Joins(f, path, f[n].parent.value, a);
      assert Joins(f, [n] + path, n, a);
    }
  }

  predicate Covers(acl: Acl, p: Principal, u: Id) {
    match p
    case User(id) => id == u
    case Team(id) => (id, u) in acl.members && id in acl.teams && acl.teams[id]
  }

  predicate Reaches(acl: Acl, g: Grant, u: Id, n: Id) {
    g.node == n && Covers(acl, g.principal, u)
  }

  ghost predicate Granted(acl: Acl, grants: set<Grant>, u: Id, n: Id) {
    exists g :: g in grants && Sees(acl.nodes, n, g.node) && Covers(acl, g.principal, u)
  }

  predicate IsFolder(acl: Acl, n: Id) {
    n in acl.nodes && acl.nodes[n].isFolder
  }

  predicate IsAdmin(acl: Acl, u: Id) {
    u in acl.users && acl.users[u].isAdmin && acl.users[u].isActive
  }

  predicate IsMember(acl: Acl, u: Id) {
    u in acl.users && !acl.users[u].isAdmin && acl.users[u].isActive
  }

  /** The right to create in a folder: administrators everywhere, active members by a read and a create grant. */
  ghost predicate MayCreate(acl: Acl, u: Id, n: Id) {
    && IsFolder(acl, n)
    && (|| IsAdmin(acl, u)
        || (IsMember(acl, u) && Granted(acl, acl.readGrants, u, n) && Granted(acl, acl.createGrants, u, n)))
  }

  // ---------- the per-folder check ----------

  lemma GrantedByStep(acl: Acl, grants: set<Grant>, u: Id, n: Id)
    requires n in acl.nodes
    ensures Granted(acl, grants, u, n) <==>
              || (exists g :: g in grants && Reaches(acl, g, u, n))
              || (!acl.nodes[n].boundary && acl.nodes[n].parent.Some?
                  && Granted(acl, grants, u, acl.nodes[n].parent.value))
  {
    if g :| g in grants && Sees(acl.nodes, n, g.node) && Covers(acl, g.principal, u) {
      SeesByStep(acl.nodes, n, g.node);
      assert n == g.node ==> Reaches(acl, g, u, n);
    }
    if g :| g in grants && Reaches(acl, g, u, n) {
      SeesItself(acl.nodes, n);
    }
    if !acl.nodes[n].boundary && acl.nodes[n].parent.Some? {
      if g :| g in grants && Sees(acl.nodes, acl.nodes[n].parent.value, g.node) && Covers(acl, g.principal, u) {
        SeesByStep(acl.nodes, n, g.node);
      }
    }
  }

  /** Climbs from `folder`, looking for a grant on the way. */
  method HasGrantAbove(acl: Acl, grants: set<Grant>, u: Id, folder: Id, ghost rank: map<Id, nat>) returns (found: bool)
    requires IsRank(acl.nodes, rank)
    ensures found <==> IsFolder(acl, folder) && Granted(acl, grants, u, folder)
  {
    if !IsFolder(acl, folder) { return false; }
    var here := folder;
    while true
      invariant here in acl.nodes
      invariant Granted(acl, grants, u, folder) <==> Granted(acl, grants, u, here)
      decreases rank[here]
    {
      GrantedByStep(acl, grants, u, here);
      if exists g :: g in grants && Reaches(acl, g, u, here) {
        return true;
      }
      var parent := acl.nodes[here].parent;
      if acl.nodes[here].boundary || parent.None? {
        return false;
      }
      if parent.value !in acl.nodes {
        NothingAboveMissing(acl, grants, u, parent.value);
        return false;
      }
      here := parent.value;
    }
  }

  lemma NothingAboveMissing(acl: Acl, grants: set<Grant>, u: Id, n: Id)
    requires n !in acl.nodes
    ensures !Granted(acl, grants, u, n)
  {
    forall g | g in grants ensures !Sees(acl.nodes, n, g.node) {
      SeesByStep(acl.nodes, n, g.node);
    }
  }

  /** For an actor who is not active, the query for the current actor yields nobody. */
  method CanCreateChildren(acl: Acl, actor: Id, folder: Id, ghost rank: map<Id, nat>) returns (allowed: bool)
    requires IsRank(acl.nodes, rank)
    ensures allowed <==> MayCreate(acl, actor, folder)
    ensures allowed <==>
              && folder in acl.nodes && acl.nodes[folder].isFolder && actor in acl.users && acl.users[actor].isActive
              && (|| acl.users[actor].isAdmin
                  || (Granted(acl, acl.readGrants, actor, folder) && Granted(acl, acl.createGrants, actor, folder)))
  {
    if !IsFolder(acl, folder) { return false; }
    if IsAdmin(acl, actor) { return true; }
    if !IsMember(acl, actor) { return false; }
    var readable := HasGrantAbove(acl, acl.readGrants, actor, folder, rank);
    if !readable { return false; }
    allowed := HasGrantAbove(acl, acl.createGrants, actor, folder, rank);
  }

  // ---------- the bulk closure ----------

  /** A row of the recursive query: the folder, an ancestor it has climbed to, and whether to go on. */
  datatype Path = Path(folder: Id, ancestor: Id, parent: Option<Id>, boundarySeen: bool)

  function Start(f: Forest): set<Path> {
    set n | n in f && f[n].isFolder :: Path(n, n, f[n].parent, f[n].boundary)
  }

  predicate Continues(f: Forest, p: Path) {
    !p.boundarySeen && p.parent.Some? && p.parent.value in f
  }

  function Next(f: Forest, p: Path): Path
    requires Continues(f, p)
  {
    var up := p.parent.value;
    Path(p.folder, up, f[up].parent, p.boundarySeen || f[up].boundary)
  }

  ghost predicate IsPath(f: Forest, p: Path) {
    && p.folder in f && f[p.folder].isFolder && p.ancestor in f && Sees(f, p.folder, p.ancestor)
    && p.parent == f[p.ancestor].parent && p.boundarySeen == f[p.ancestor].boundary
  }

  lemma NextIsPath(f: Forest, p: Path)
    requires IsPath(f, p) && Continues(f, p)
    ensures IsPath(f, Next(f, p))
  {
    SeesFurther(f, p.folder, p.ancestor, p.parent.value);
  }

  predicate ClosedUnderNext(f: Forest, paths: set<Path>, frontier: set<Path>) {
    forall p | p in paths && p !in frontier && Continues(f, p) :: Next(f, p) in paths
  }

  lemma {:induction false} ClosureIsComplete(f: Forest, paths: set<Path>, climb: seq<Id>)
    requires Start(f) <= paths && ClosedUnderNext(f, paths, {})
    requires Climbs(f, climb) && f[climb[0]].isFolder
    ensures var a := climb[|climb| - 1]; Path(climb[0], a, f[a].parent, f[a].boundary) in paths
  {
    if |climb| == 1 {
      var n := climb[0];
      assert Path(n, n, f[n].parent, f[n].boundary) in Start(f);
    } else {
      var k := |climb| - 2;
      ClosureIsComplete(f, paths, climb[..k + 1]);
      assert !f[climb[k]].boundary && f[climb[k]].parent == Some(climb[k + 1]) && climb[k + 1] in f;
      assert Climbs(f, climb[..k + 1]);
      var p := Path(climb[0], climb[k], f[climb[k]].parent, f[climb[k]].boundary);
      assert Continues(f, p) && Next(f, p) in paths;
    }
  }

  /** The recursive query, level by level, until a level is empty. */
  method AllPaths(f: Forest, ghost rank: map<Id, nat>) returns (paths: set<Path>)
    requires IsRank(f, rank)
    ensures forall p :: p in paths <==> IsPath(f, p)
  {
    paths := Start(f);
    var frontier := paths;
    ghost var top := HighestRank(rank);
    ghost var level: int := 0;
    forall p | p in paths ensures IsPath(f, p) {
      SeesItself(f, p.folder);
    }
    while frontier != {}
      invariant Start(f) <= paths && frontier <= paths
      invariant forall p | p in paths :: IsPath(f, p)
      invariant ClosedUnderNext(f, paths, frontier)
      invariant forall p | p in frontier :: rank[p.ancestor] + level <= top
      decreases frontier != {}, top + 1 - level
    {
      ghost var some := AnyOf(frontier);
      var next := set p | p in frontier && Continues(f, p) :: Next(f, p);
      forall q | q in next ensures IsPath(f, q) && rank[q.ancestor] + level + 1 <= top {
        var p :| p in frontier && Continues(f, p) && q == Next(f, p);
        NextIsPath(f, p);
      }
      paths := paths + next;
      frontier := next;
      level := level + 1;
    }
    forall p | IsPath(f, p) ensures p in paths {
      var climb :| Joins(f, climb, p.folder, p.ancestor);
      ClosureIsComplete(f, paths, climb);
    }
  }

  lemma {:induction false} HighestRank(rank: map<Id, nat>) returns (top: nat)
    ensures forall n | n in rank :: rank[n] <= top
    decreases |rank|
  {
    if rank == map[] {
      top := 0;
    } else {
      var n := AnyOf(rank.Keys);
      var rest := map m | m in rank && m != n :: rank[m];
      assert rank.Keys == rest.Keys + {n};
      assert |rank| == |rank.Keys| && |rest| == |rest.Keys|;
      var below := HighestRank(rest);
      top := if rank[n] > below then rank[n] else below;
    }
  }

  // ---------- effective access of every member at once ----------

  /** The joins of the paths with the grants, directly and through active teams. */
  function Rows(acl: Acl, paths: set<Path>, grants: set<Grant>): set<(Id, Id)> {
    (set p, g | p in paths && g in grants && g.node == p.ancestor && g.principal.User? :: (g.principal.id, p.folder))
    + (set p, g, m | p in paths && g in grants && g.node == p.ancestor && g.principal.Team? && m in acl.members
                     && m.0 == g.principal.id && m.0 in acl.teams && acl.teams[m.0] :: (m.1, p.folder))
  }

  lemma RowsAreGranted(acl: Acl, paths: set<Path>, grants: set<Grant>, u: Id, n: Id)
    requires forall p :: p in paths <==> IsPath(acl.nodes, p)
    ensures (u, n) in Rows(acl, paths, grants) <==> IsFolder(acl, n) && Granted(acl, grants, u, n)
  {
    if (u, n) in Rows(acl, paths, grants) {
      var p, g :| p in paths && g in grants && g.node == p.ancestor && p.folder == n && Covers(acl, g.principal, u);
      assert IsPath(acl.nodes, p);
    }
    if IsFolder(acl, n) && Granted(acl, grants, u, n) {
      var g :| g in grants && Sees(acl.nodes, n, g.node) && Covers(acl, g.principal, u);
      var climb :| Joins(acl.nodes, climb, n, g.node);
      assert g.node in acl.nodes;
      var p := Path(n, g.node, acl.nodes[g.node].parent, acl.nodes[g.node].boundary);
      assert IsPath(acl.nodes, p) && p in paths;
      if g.principal.Team? {
        var m := (g.principal.id, u);
        assert m in acl.members && m.0 == g.principal.id;
      }
    }
  }

  /** Every active member with every folder in which the per-folder check lets that member create. */
  ghost predicate IsEffective(acl: Acl, u: Id, n: Id) {
    IsMember(acl, u) && MayCreate(acl, u, n)
  }

  method EffectiveAccess(acl: Acl, ghost rank: map<Id, nat>) returns (rows: set<(Id, Id)>)
    requires IsRank(acl.nodes, rank)
    ensures forall u, n :: (u, n) in rows <==> IsEffective(acl, u, n)
    ensures forall u, n | (u, n) in rows :: u in acl.users && acl.users[u].isActive && !acl.users[u].isAdmin
  {
    var paths := AllPaths(acl.nodes, rank);
    var readable, creatable := Rows(acl, paths, acl.readGrants), Rows(acl, paths, acl.createGrants);
    rows := set row | row in readable && row in creatable && IsMember(acl, row.0);
    forall u, n ensures (u, n) in rows <==> IsEffective(acl, u, n) {
      RowsAreGranted(acl, paths, acl.readGrants, u, n);
      RowsAreGranted(acl, paths, acl.createGrants, u, n);
    }
  }

  // ---------- operations ----------

  datatype Operation =
    | SetReadGrant(node: Id, principal: Principal, present: bool)
    | SetMembership(team: Id, user: Id, present: bool)
    | SetBoundary(folder: Id, enabled: bool)
    | SetTeamActive(team: Id, active: bool)
    | MoveNode(moved: Id, target: Option<Id>)
    | SetCreateGrant(folder: Id, principal: Principal, present: bool)

  function Toggle<T>(s: set<T>, x: T, present: bool): set<T> {
    if present then s + {x} else s - {x}
  }

  /** The tables as the preview imagines them after the operation. */
  function Imagined(acl: Acl, op: Operation): Acl {
    match op
    case SetReadGrant(node, principal, present) =>
      acl.(readGrants := Toggle(acl.readGrants, Grant(node, principal), present))
    case SetMembership(team, user, present) => acl.(members := Toggle(acl.members, (team, user), present))
    case SetBoundary(folder, enabled) =>
      acl.(nodes := map n | n in acl.nodes :: if n == folder then acl.nodes[n].(boundary := enabled) else acl.nodes[n])
    case SetTeamActive(team, active) =>
      acl.(teams := map t | t in acl.teams :: if t == team then active else acl.teams[t])
    case MoveNode(moved, target) =>
      acl.(nodes := map n | n in acl.nodes :: if n == moved then acl.nodes[n].(parent := target) else acl.nodes[n])
    case SetCreateGrant(folder, principal, present) =>
      acl.(createGrants := Toggle(acl.createGrants, Grant(folder, principal), present))
  }

  datatype Impact = Impact(users: set<Id>, nodes: set<Id>)

  /** The members and folders whose create access really differs between two sets of tables. */
  ghost predicate Differs(before: Acl, after: Acl, u: Id, n: Id) {
    IsEffective(before, u, n) != IsEffective(after, u, n)
  }

  ghost predicate IsImpact(before: Acl, after: Acl, impact: Impact) {
    && (forall u :: u in impact.users <==> exists n :: Differs(before, after, u, n))
    && (forall n :: n in impact.nodes <==> exists u :: Differs(before, after, u, n))
  }

  /** The one impact between two sets of tables. */
  ghost function ImpactBetween(before: Acl, after: Acl): (impact: Impact)
    requires after.users == before.users && after.nodes.Keys == before.nodes.Keys
    ensures IsImpact(before, after, impact)
  {
    var impact := Impact(set u | u in before.users && exists n :: Differs(before, after, u, n),
                         set n | n in before.nodes && exists u :: Differs(before, after, u, n));
    assert IsImpact(before, after, impact);
    impact
  }

  lemma ImpactIsUnique(before: Acl, after: Acl, i: Impact, j: Impact)
    requires IsImpact(before, after, i) && IsImpact(before, after, j)
    ensures i == j
  {
    assert forall u :: u in i.users <==> u in j.users;
    assert forall n :: n in i.nodes <==> n in j.nodes;
    assert i.users == j.users && i.nodes == j.nodes;
  }

  /** The part of the preview that concerns creating: both projections of the symmetric difference. */
  method CreateImpact(acl: Acl, op: Operation, ghost rank: map<Id, nat>, ghost rankAfter: map<Id, nat>)
    returns (impact: Impact)
    requires IsRank(acl.nodes, rank) && IsRank(Imagined(acl, op).nodes, rankAfter)
    ensures IsImpact(acl, Imagined(acl, op), impact)
  {
    var before := EffectiveAccess(acl, rank);
    var after := EffectiveAccess(Imagined(acl, op), rankAfter);
    var changed := (before - after) + (after - before);
    impact := Impact(Firsts(changed), Seconds(changed));
    forall u, n ensures (u, n) in changed <==> Differs(acl, Imagined(acl, op), u, n) {
    }
    forall u ensures u in impact.users <==> exists n :: Differs(acl, Imagined(acl, op), u, n) {
      if u in impact.users {
        var n := HasSecond(changed, u);
        assert Differs(acl, Imagined(acl, op), u, n);
      }
      if n :| Differs(acl, Imagined(acl, op), u, n) {
        IsFirst(changed, u, n);
      }
    }
    forall n ensures n in impact.nodes <==> exists u :: Differs(acl, Imagined(acl, op), u, n) {
      if n in impact.nodes {
        var u := HasFirst(changed, n);
        assert Differs(acl, Imagined(acl, op), u, n);
      }
      if u :| Differs(acl, Imagined(acl, op), u, n) {
        IsFirst(changed, u, n);
      }
    }
  }

  function Firsts<A(==), B(==)>(rows: set<(A, B)>): set<A> {
    set row | row in rows :: row.0
  }

  function Seconds<A(==), B(==)>(rows: set<(A, B)>): set<B> {
    set row | row in rows :: row.1
  }

  lemma IsFirst<A, B>(rows: set<(A, B)>, a: A, b: B)
    requires (a, b) in rows
    ensures a in Firsts(rows) && b in Seconds(rows)
  {
    assert (a, b).0 == a && (a, b).1 == b;
  }

  lemma HasSecond<A, B>(rows: set<(A, B)>, a: A) returns (b: B)
    requires a in Firsts(rows)
    ensures (a, b) in rows
  {
    var row :| row in rows && row.0 == a;
    b := row.1;
  }

  lemma HasFirst<A, B>(rows: set<(A, B)>, b: B) returns (a: A)
    requires b in Seconds(rows)
    ensures (a, b) in rows
  {
    var row :| row in rows && row.1 == b;
    a := row.0;
  }

  // ---------- carrying an operation out ----------

  /** The tree without its boundaries: who is whose descendant. */
  function Open(f: Forest): Forest {
    map n | n in f :: f[n].(boundary := false)
  }

  ghost predicate IsUnder(f: Forest, x: Id, n: Id) {
    Sees(Open(f), x, n)
  }

  predicate Exists(acl: Acl, p: Principal) {
    match p
    case User(id) => id in acl.users
    case Team(id) => id in acl.teams
  }

  /** What the foreign keys, triggers and explicit checks let through. */
  ghost predicate Accepted(acl: Acl, op: Operation) {
    match op
    case SetReadGrant(node, principal, present) => present ==> node in acl.nodes && Exists(acl, principal)
    case SetMembership(team, user, present) => present ==> team in acl.teams && user in acl.users
    case SetBoundary(folder, _) => IsFolder(acl, folder)
    case SetTeamActive(_, _) => true
    case MoveNode(moved, target) =>
      moved in acl.nodes && (target.Some? ==> IsFolder(acl, target.value) && !IsUnder(acl.nodes, target.value, moved))
    case SetCreateGrant(folder, principal, present) => present ==> IsFolder(acl, folder) && Exists(acl, principal)
  }

  /** Row by row, what the operation writes; `None` when it raises. */
  ghost function Apply(acl: Acl, op: Operation): Option<Acl> {
    if !Accepted(acl, op) then None
    else
      match op
      case SetReadGrant(node, principal, present) =>
        var g := Grant(node, principal);
        Some(acl.(readGrants := if present then acl.readGrants + {g} else acl.readGrants - {g}))
      case SetMembership(team, user, present) =>
        Some(acl.(members := if present then acl.members + {(team, user)} else acl.members - {(team, user)}))
      case SetBoundary(folder, enabled) =>
        Some(acl.(nodes := acl.nodes[folder := acl.nodes[folder].(boundary := enabled)]))
      case SetTeamActive(team, active) =>
        Some(if team in acl.teams then acl.(teams := acl.teams[team := active]) else acl)
      case MoveNode(moved, target) =>
        Some(acl.(nodes := acl.nodes[moved := acl.nodes[moved].(parent := target)]))
      case SetCreateGrant(folder, principal, present) =>
        var g := Grant(folder, principal);
        Some(acl.(createGrants := if present then acl.createGrants + {g} else acl.createGrants - {g}))
  }

  /** The preview imagined exactly what happens. */
  lemma AppliedIsImagined(acl: Acl, op: Operation)
    requires Apply(acl, op).Some?
    ensures Apply(acl, op).value == Imagined(acl, op)
  {
    var acl' := Imagined(acl, op);
    match op
    case SetBoundary(_, _) => assert Apply(acl, op).value.nodes == acl'.nodes;
    case MoveNode(_, _) => assert Apply(acl, op).value.nodes == acl'.nodes;
    case SetTeamActive(_, _) => assert Apply(acl, op).value.teams == acl'.teams;
    case _ =>
  }

  /** Row by row, what the tables hold after an operation: what it sets, and everything else as before. */
  lemma AppliedRows(acl: Acl, op: Operation)
    requires Apply(acl, op).Some?
    ensures var after := Apply(acl, op).value;
            && after.users == acl.users && after.teams.Keys == acl.teams.Keys && after.nodes.Keys == acl.nodes.Keys
            && (forall g :: g in after.createGrants <==>
                  if op.SetCreateGrant? && g == Grant(op.folder, op.principal) then op.present
                  else g in acl.createGrants)
            && (forall g :: g in after.readGrants <==>
                  if op.SetReadGrant? && g == Grant(op.node, op.principal) then op.present else g in acl.readGrants)
            && (forall m :: m in after.members <==>
                  if op.SetMembership? && m == (op.team, op.user) then op.present else m in acl.members)
            && (forall t | t in acl.teams ::
                  after.teams[t] == if op.SetTeamActive? && t == op.team then op.active else acl.teams[t])
            && (forall n | n in acl.nodes ::
                  && after.nodes[n].isFolder == acl.nodes[n].isFolder
                  && after.nodes[n].parent == (if op.MoveNode? && n == op.moved then op.target else acl.nodes[n].parent)
                  && after.nodes[n].boundary == if op.SetBoundary? && n == op.folder then op.enabled
                                                else acl.nodes[n].boundary)
  {
  }

  /** Unless a node is moved below itself, the tree stays a tree. */
  lemma ImaginedIsRanked(acl: Acl, op: Operation, rank: map<Id, nat>) returns (rank': map<Id, nat>)
    requires IsRank(acl.nodes, rank)
    requires op.MoveNode? && op.target.Some? ==> !IsUnder(acl.nodes, op.target.value, op.moved)
    ensures IsRank(Imagined(acl, op).nodes, rank')
  {
    rank' := rank;
    if op.MoveNode? {
      var f, open := acl.nodes, Open(acl.nodes);
      var lift := if op.target.Some? && op.target.value in f then rank[op.target.value] + 1 else 0;
      rank' := map x | x in f :: if IsUnder(f, x, op.moved) then rank[x] + lift else rank[x];
      var f' := Imagined(acl, op).nodes;
      forall x | x in f' && f'[x].parent.Some? && f'[x].parent.value in f'
        ensures rank'[f'[x].parent.value] < rank'[x]
      {
        if x == op.moved {
          SeesItself(open, x);
        } else {
          SeesByStep(open, x, op.moved);
        }
      }
    }
  }

  /** Climbs from `x` to see whether `n` is above it. */
  method FindsAbove(f: Forest, x: Id, n: Id, ghost rank: map<Id, nat>) returns (found: bool)
    requires IsRank(f, rank)
    ensures found <==> IsUnder(f, x, n)
  {
    SeesByStep(Open(f), x, n);
    if x !in f { return false; }
    var here := x;
    while here != n
      invariant here in f && (IsUnder(f, x, n) <==> IsUnder(f, here, n))
      decreases rank[here]
    {
      SeesByStep(Open(f), here, n);
      if f[here].parent.None? { return false; }
      SeesByStep(Open(f), f[here].parent.value, n);
      if f[here].parent.value !in f { return false; }
      here := f[here].parent.value;
    }
    SeesItself(Open(f), n);
    return true;
  }

  /** What the preview answers, as a function of the tables. */
  ghost function ImpactOf(acl: Acl, op: Operation): Option<Impact> {
    if op.MoveNode? && op.target.Some? && IsUnder(acl.nodes, op.target.value, op.moved) then None
    else if op.SetCreateGrant? && !IsFolder(acl, op.folder) then None
    else Some(ImpactBetween(acl, Imagined(acl, op)))
  }

  /**
   The preview of an operation. It refuses a move below itself and a create grant on anything but a folder;
   otherwise it names exactly the members and folders whose create access changes when the operation is
   carried out.
   */
  method Preview(acl: Acl, op: Operation, ghost rank: map<Id, nat>) returns (impact: Option<Impact>)
    requires IsRank(acl.nodes, rank)
    ensures impact == ImpactOf(acl, op)
    ensures impact.Some? && Apply(acl, op).Some? ==> IsImpact(acl, Apply(acl, op).value, impact.value)
  {
    if op.MoveNode? && op.target.Some? {
      var cyclic := FindsAbove(acl.nodes, op.target.value, op.moved, rank);
      if cyclic { return None; }
    }
    if op.SetCreateGrant? && !IsFolder(acl, op.folder) { return None; }
    ghost var rankAfter := ImaginedIsRanked(acl, op, rank);
    var found := CreateImpact(acl, op, rank, rankAfter);
    ImpactIsUnique(acl, Imagined(acl, op), found, ImpactOf(acl, op).value);
    if Apply(acl, op).Some? {
      AppliedIsImagined(acl, op);
    }
    return Some(found);
  }

  /** A grant on a folder can change nothing outside what lies below it without a boundary in between. */
  lemma GrantChangeIsLocal(acl: Acl, op: Operation, u: Id, n: Id)
    requires (op.SetCreateGrant? || op.SetReadGrant?) && Apply(acl, op).Some?
    requires Differs(acl, Apply(acl, op).value, u, n)
    ensures Sees(acl.nodes, n, if op.SetCreateGrant? then op.folder else op.node)
  {
    var at := if op.SetCreateGrant? then op.folder else op.node;
    var after := Apply(acl, op).value;
    if !Sees(acl.nodes, n, at) {
      GrantedElsewhere(acl, after, acl.readGrants, after.readGrants, at, u, n);
      GrantedElsewhere(acl, after, acl.createGrants, after.createGrants, at, u, n);
    }
  }

  lemma GrantedElsewhere(acl: Acl, after: Acl, grants: set<Grant>, changed: set<Grant>, at: Id, u: Id, n: Id)
    requires after.nodes == acl.nodes && after.members == acl.members && after.teams == acl.teams
    requires forall g: Grant | g.node != at :: g in grants <==> g in changed
    requires !Sees(acl.nodes, n, at)
    ensures Granted(acl, grants, u, n) <==> Granted(after, changed, u, n)
  {
    if g :| g in grants && Sees(acl.nodes, n, g.node) && Covers(acl, g.principal, u) {
      assert g in changed && Covers(after, g.principal, u);
    }
    if g :| g in changed && Sees(after.nodes, n, g.node) && Covers(after, g.principal, u) {
      assert g in grants && Covers(acl, g.principal, u);
    }
  }
}
