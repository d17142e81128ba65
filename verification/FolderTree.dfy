/** The library tree: creating folders and moving nodes keep it a forest of bounded depth and size. */
module FolderTree {

  import opened LittleEndian
  import opened Wrappers
  import opened Sets

  type Id = int

  datatype Node = Node(parent: Option<Id>, isFolder: bool, nameKey: seq<Byte>)

  type Forest = map<Id, Node>

  const MAXIMUM_DEPTH := 256
  const MAXIMUM_NODES := 10000
  const WALK_LIMIT := 257

  datatype Outcome = Done | Invalid | Denied | TooDeep | TooMany | NameTaken | KeyTaken | Cyclic

  /** Every node knows its depth, roots having depth 1: there is no cycle and no dangling parent. */
  predicate IsDepth(f: Forest, depth: map<Id, int>) {
    && depth.Keys == f.Keys
    && forall n | n in f :: Settled(f, depth, n)
  }

  predicate Settled(f: Forest, depth: map<Id, int>, n: Id)
    requires n in f && depth.Keys == f.Keys
  {
    depth[n] >= 1
    && match f[n].parent
       case None => depth[n] == 1
       case Some(p) => p in f && f[p].isFolder && depth[n] == depth[p] + 1
  }

  /** Folders stay within the limit; a file may lie one below the deepest folder. */
  predicate Shallow(f: Forest, depth: map<Id, int>)
    requires depth.Keys == f.Keys
  {
    forall n | n in f :: depth[n] <= if f[n].isFolder then MAXIMUM_DEPTH else MAXIMUM_DEPTH + 1
  }

  /** The unique index on parent and name key; two roots share the absent parent. */
  predicate NamesAreUnique(f: Forest) {
    forall m, n | m in f && n in f && m != n && f[m].parent == f[n].parent :: f[m].nameKey != f[n].nameKey
  }

  /** `x` is `n` or lies below it. */
  predicate IsUnder(f: Forest, depth: map<Id, int>, x: Id, n: Id)
    requires IsDepth(f, depth) && x in f
    decreases (assert Settled(f, depth, x); depth[x])
  {
    x == n || (assert Settled(f, depth, x); f[x].parent.Some? && IsUnder(f, depth, f[x].parent.value, n))
  }

  /** A forest has only one way of assigning depths. */
  lemma {:induction false} DepthIsUnique(f: Forest, a: map<Id, int>, b: map<Id, int>, n: Id)
    requires IsDepth(f, a) && IsDepth(f, b) && n in f
    ensures a[n] == b[n]
    decreases (assert Settled(f, a, n); a[n])
  {
    assert Settled(f, a, n) && Settled(f, b, n);
    if f[n].parent.Some? {
      DepthIsUnique(f, a, b, f[n].parent.value);
    }
  }

  lemma {:induction false} UnderIsDeeper(f: Forest, depth: map<Id, int>, x: Id, n: Id)
    requires IsDepth(f, depth) && x in f && n in f && IsUnder(f, depth, x, n)
    ensures 1 <= depth[n] <= depth[x] && (depth[n] == depth[x] ==> x == n)
    decreases (assert Settled(f, depth, x); depth[x])
  {
    assert Settled(f, depth, x);
    if x != n { UnderIsDeeper(f, depth, f[x].parent.value, n); }
  }

  predicate ValidName(name: string, key: seq<Byte>) {
    && 1 <= |name| <= 255 && name[0] != ' ' && name[|name| - 1] != ' '
    && 1 <= |key| <= 1024
  }

  // ---------- adding a leaf ----------

  predicate IsFree(f: Forest, parent: Option<Id>, key: seq<Byte>) {
    forall n | n in f :: f[n].parent != parent || f[n].nameKey != key
  }

  predicate Hangs(f: Forest, depth: map<Id, int>, node: Node)
    requires depth.Keys == f.Keys
  {
    node.parent.Some? ==> && node.parent.value in f && f[node.parent.value].isFolder
                          && (node.isFolder ==> depth[node.parent.value] < MAXIMUM_DEPTH)
  }

  lemma LeafIsSettled(f: Forest, depth: map<Id, int>, id: Id, node: Node)
    requires IsDepth(f, depth) && id !in f && Hangs(f, depth, node)
    ensures IsDepth(f[id := node], depth[id := DepthBelow(depth, node.parent)])
  {
    var f', depth' := f[id := node], depth[id := DepthBelow(depth, node.parent)];
    forall n | n in f' ensures Settled(f', depth', n) {
      if n != id {
        assert Settled(f, depth, n);
      } else if node.parent.Some? {
        assert Settled(f, depth, node.parent.value);
      }
    }
  }

  lemma LeafKeepsLimits(f: Forest, depth: map<Id, int>, id: Id, node: Node)
    requires IsDepth(f, depth) && id !in f && Hangs(f, depth, node)
    requires Shallow(f, depth) && NamesAreUnique(f) && IsFree(f, node.parent, node.nameKey)
    ensures Shallow(f[id := node], depth[id := DepthBelow(depth, node.parent)]) && NamesAreUnique(f[id := node])
  {
    if node.parent.Some? {
      var p := node.parent.value;
      assert p in f && depth[p] <= MAXIMUM_DEPTH;
    }
  }

  /** The limits that creating and moving folders are held to. */
  predicate WithinLimits(f: Forest, depth: map<Id, int>)
    requires depth.Keys == f.Keys
  {
    |f| <= MAXIMUM_NODES && forall n | n in f :: depth[n] <= MAXIMUM_DEPTH
  }

  /** There is room for one more node below `parent`. */
  predicate HasRoom(f: Forest, depth: map<Id, int>, parent: Option<Id>)
    requires parent.Some? ==> parent.value in depth
  {
    |f| < MAXIMUM_NODES && (parent.Some? ==> depth[parent.value] < MAXIMUM_DEPTH)
  }

  lemma LeafNeedsRoom(f: Forest, depth: map<Id, int>, id: Id, node: Node)
    requires depth.Keys == f.Keys && id !in f && Hangs(f, depth, node) && WithinLimits(f, depth)
    ensures WithinLimits(f[id := node], depth[id := DepthBelow(depth, node.parent)]) <==> HasRoom(f, depth, node.parent)
  {
    var f', depth' := f[id := node], depth[id := DepthBelow(depth, node.parent)];
    assert id in f' && forall n | n in f :: depth'[n] == depth[n];
  }

  // ---------- the new depths after a move ----------

  function Moved(f: Forest, n: Id, target: Option<Id>): Forest
    requires n in f
  {
    f[n := f[n].(parent := target)]
  }

  function DepthBelow(depth: map<Id, int>, target: Option<Id>): int
    requires target.Some? ==> target.value in depth
  {
    if target.None? then 1 else depth[target.value] + 1
  }

  function MovedDepth(f: Forest, depth: map<Id, int>, n: Id, target: Option<Id>): map<Id, int>
    requires IsDepth(f, depth) && n in f && (target.Some? ==> target.value in f)
  {
    map x | x in f ::
      if IsUnder(f, depth, x, n) then depth[x] - depth[n] + DepthBelow(depth, target) else depth[x]
  }

  lemma MovedIsSettled(f: Forest, depth: map<Id, int>, n: Id, target: Option<Id>, x: Id)
    requires IsDepth(f, depth) && n in f && x in f
    requires target.Some? ==> target.value in f && f[target.value].isFolder && !IsUnder(f, depth, target.value, n)
    ensures Settled(Moved(f, n, target), MovedDepth(f, depth, n, target), x)
  {
    assert Settled(f, depth, x);
    if target.Some? { assert Settled(f, depth, target.value); }
    if IsUnder(f, depth, x, n) { UnderIsDeeper(f, depth, x, n); }
  }

  lemma MovedIsDepth(f: Forest, depth: map<Id, int>, n: Id, target: Option<Id>)
    requires IsDepth(f, depth) && n in f
    requires target.Some? ==> target.value in f && f[target.value].isFolder && !IsUnder(f, depth, target.value, n)
    ensures IsDepth(Moved(f, n, target), MovedDepth(f, depth, n, target))
  {
    forall x | x in f ensures Settled(Moved(f, n, target), MovedDepth(f, depth, n, target), x) {
      MovedIsSettled(f, depth, n, target, x);
    }
  }

  // ---------- subtrees ----------

  /** Above a deep descendant there is one at every level in between. */
  lemma {:induction false} UnderAtLevel(f: Forest, depth: map<Id, int>, x: Id, n: Id, k: nat) returns (y: Id)
    requires IsDepth(f, depth) && x in f && n in f && IsUnder(f, depth, x, n) && depth[n] + k <= depth[x]
    ensures y in f && IsUnder(f, depth, y, n) && depth[y] == depth[n] + k
    decreases (assert Settled(f, depth, x); depth[x])
  {
    y := x;
    if depth[x] != depth[n] + k {
      assert Settled(f, depth, x);
      y := UnderAtLevel(f, depth, f[x].parent.value, n, k);
    }
  }

  lemma ChildIsUnder(f: Forest, depth: map<Id, int>, x: Id, n: Id)
    requires IsDepth(f, depth) && x in f && n in f && x != n
    ensures IsUnder(f, depth, x, n) <==> f[x].parent.Some? && IsUnder(f, depth, f[x].parent.value, n)
    ensures f[x].parent.Some? ==> depth[x] == depth[f[x].parent.value] + 1
  {
    assert Settled(f, depth, x);
  }

  ghost predicate IsLevel(f: Forest, depth: map<Id, int>, level: set<Id>, n: Id, k: int)
    requires IsDepth(f, depth) && n in f
  {
    forall x :: x in level <==> x in f && IsUnder(f, depth, x, n) && depth[x] == depth[n] + k
  }

  function Children(f: Forest, level: set<Id>): set<Id> {
    set x | x in f && f[x].parent.Some? && f[x].parent.value in level
  }

  lemma NextLevel(f: Forest, depth: map<Id, int>, level: set<Id>, n: Id, k: nat)
    requires IsDepth(f, depth) && n in f && IsLevel(f, depth, level, n, k)
    ensures IsLevel(f, depth, Children(f, level), n, k + 1)
  {
    forall x ensures x in Children(f, level) <==> x in f && IsUnder(f, depth, x, n) && depth[x] == depth[n] + k + 1 {
      if x in f {
        if x == n {
          assert Settled(f, depth, n);
        } else {
          ChildIsUnder(f, depth, x, n);
        }
      }
    }
  }

  ghost predicate IsSubtree(f: Forest, depth: map<Id, int>, under: set<Id>, n: Id, height: int)
    requires IsDepth(f, depth) && n in f
  {
    forall x :: x in under <==> x in f && IsUnder(f, depth, x, n) && depth[x] <= depth[n] + height
  }

  lemma TopLevel(f: Forest, depth: map<Id, int>, n: Id)
    requires IsDepth(f, depth) && n in f
    ensures IsLevel(f, depth, {n}, n, 0)
    ensures IsSubtree(f, depth, {n}, n, 0)
  {
    forall x | x in f && IsUnder(f, depth, x, n) ensures depth[n] <= depth[x] && (depth[n] == depth[x] ==> x == n) {
      UnderIsDeeper(f, depth, x, n);
    }
  }

  /** Where a level is empty, nothing is deeper. */
  lemma NothingDeeper(f: Forest, depth: map<Id, int>, n: Id, height: nat)
    requires IsDepth(f, depth) && n in f && IsLevel(f, depth, {}, n, height + 1)
    ensures forall x | x in f && IsUnder(f, depth, x, n) :: depth[x] <= depth[n] + height
  {
    forall x | x in f && IsUnder(f, depth, x, n) ensures depth[x] <= depth[n] + height {
      if depth[x] > depth[n] + height {
        var y := UnderAtLevel(f, depth, x, n, height + 1);
      }
    }
  }

  /** Everything below `n` may be lifted with it. */
  ghost predicate Fits(f: Forest, depth: map<Id, int>, n: Id, target: Option<Id>)
    requires IsDepth(f, depth) && n in f && (target.Some? ==> target.value in f)
  {
    forall x | x in f && IsUnder(f, depth, x, n) :: depth[x] - depth[n] + DepthBelow(depth, target) <= MAXIMUM_DEPTH
  }

  lemma FitsByHeight(f: Forest, depth: map<Id, int>, n: Id, target: Option<Id>, under: set<Id>, height: int)
    requires IsDepth(f, depth) && n in f && (target.Some? ==> target.value in f)
    requires forall x :: x in under <==> x in f && IsUnder(f, depth, x, n)
    requires forall x | x in under :: depth[x] <= depth[n] + height
    requires exists x :: x in under && depth[x] == depth[n] + height
    ensures Fits(f, depth, n, target) <==> height <= MAXIMUM_DEPTH - DepthBelow(depth, target)
  {
  }

  lemma MovedIsShallow(f: Forest, depth: map<Id, int>, n: Id, target: Option<Id>)
    requires IsDepth(f, depth) && n in f && (target.Some? ==> target.value in f)
    requires Shallow(f, depth) && Fits(f, depth, n, target)
    ensures Shallow(Moved(f, n, target), MovedDepth(f, depth, n, target))
  {
  }

  predicate NameIsFreeAt(f: Forest, n: Id, target: Option<Id>)
    requires n in f
  {
    forall m | m in f && m != n :: f[m].parent != target || f[m].nameKey != f[n].nameKey
  }

  predicate MayReceive(f: Forest, depth: map<Id, int>, n: Id, target: Option<Id>)
    requires IsDepth(f, depth)
  {
    target.Some? ==> target.value in f && f[target.value].isFolder && !IsUnder(f, depth, target.value, n)
  }

  lemma MovedNamesAreUnique(f: Forest, n: Id, target: Option<Id>)
    requires n in f && NamesAreUnique(f)
    requires NameIsFreeAt(f, n, target)
    ensures NamesAreUnique(Moved(f, n, target))
  {
  }

  /** A name is free exactly if the new node leaves all names unique, and so for a moved one. */
  lemma FreeExactly(f: Forest, id: Id, node: Node)
    requires NamesAreUnique(f) && id !in f
    ensures IsFree(f, node.parent, node.nameKey) <==> NamesAreUnique(f[id := node])
  {
    var f' := f[id := node];
    if !IsFree(f, node.parent, node.nameKey) {
      var n :| n in f && f[n].parent == node.parent && f[n].nameKey == node.nameKey;
      assert n in f' && id in f' && f'[n] == f[n] && f'[id] == node;
    }
  }

  lemma FreeThereExactly(f: Forest, n: Id, target: Option<Id>)
    requires NamesAreUnique(f) && n in f
    ensures NameIsFreeAt(f, n, target) <==> NamesAreUnique(Moved(f, n, target))
  {
    var f' := Moved(f, n, target);
    if !NameIsFreeAt(f, n, target) {
      var m :| m in f && m != n && f[m].parent == target && f[m].nameKey == f[n].nameKey;
      assert f'[m] == f[m] && f'[n].parent == target;
    }
  }

  /** A node that ends up below itself is in no forest. */
  lemma {:induction false} NeverBelowItself(f: Forest, depth: map<Id, int>, n: Id, target: Id, x: Id,
                                            depth': map<Id, int>)
    requires IsDepth(f, depth) && n in f && x in f && IsUnder(f, depth, x, n)
    requires IsDepth(Moved(f, n, Some(target)), depth')
    ensures depth'[n] <= depth'[x]
    decreases (assert Settled(f, depth, x); depth[x])
  {
    if x != n {
      assert Settled(f, depth, x) && Settled(Moved(f, n, Some(target)), depth', x);
      NeverBelowItself(f, depth, n, target, f[x].parent.value, depth');
    }
  }

  /** The target may receive the node exactly if the result is a forest again. */
  lemma MayReceiveExactly(f: Forest, depth: map<Id, int>, n: Id, target: Option<Id>)
    requires IsDepth(f, depth) && n in f
    ensures MayReceive(f, depth, n, target) <==> exists depth' :: IsDepth(Moved(f, n, target), depth')
  {
    if MayReceive(f, depth, n, target) {
      MovedIsDepth(f, depth, n, target);
    }
    if depth' :| IsDepth(Moved(f, n, target), depth') {
      assert Settled(Moved(f, n, target), depth', n);
      if target.Some? && IsUnder(f, depth, target.value, n) {
        NeverBelowItself(f, depth, n, target.value, target.value, depth');
      }
    }
  }

  /** And there is room for it exactly if everything below it ends up within the limit. */
  lemma FitsExactly(f: Forest, depth: map<Id, int>, n: Id, target: Option<Id>)
    requires IsDepth(f, depth) && n in f && (target.Some? ==> target.value in f)
    ensures Fits(f, depth, n, target) <==>
              forall x | x in f && IsUnder(f, depth, x, n) :: MovedDepth(f, depth, n, target)[x] <= 256
  {
  }

  lemma MoveIsSound(f: Forest, depth: map<Id, int>, n: Id, target: Option<Id>)
    requires IsDepth(f, depth) && Shallow(f, depth) && NamesAreUnique(f) && n in f
    requires MayReceive(f, depth, n, target) && Fits(f, depth, n, target) && NameIsFreeAt(f, n, target)
    ensures var f' := Moved(f, n, target); var depth' := MovedDepth(f, depth, n, target);
            IsDepth(f', depth') && Shallow(f', depth') && NamesAreUnique(f') && |f'| == |f|
  {
    MovedIsDepth(f, depth, n, target);
    MovedIsShallow(f, depth, n, target);
    MovedNamesAreUnique(f, n, target);
    SameSize(f, Moved(f, n, target));
  }

  lemma SameSize(f: Forest, g: Forest)
    requires f.Keys == g.Keys
    ensures |f| == |g|
  {
    assert |f| == |f.Keys| && |g| == |g.Keys|;
  }

  class Library {
    var nodes: Forest
    ghost var depth: map<Id, int>
    /** How many files have been uploaded; uploading is not held to the limits. */
    ghost var uploads: nat

    ghost predicate Valid()
      reads this
    {
      && IsDepth(nodes, depth) && Shallow(nodes, depth) && NamesAreUnique(nodes)
      && |nodes| <= MAXIMUM_NODES + uploads
    }

    constructor ()
      ensures Valid() && nodes == map[] && uploads == 0
    {
      nodes, depth, uploads := map[], map[], 0;
    }

    /** The recursive query with its cap: exact below the cap, on any forest. */
    method CappedDepth(parent: Id) returns (d: Option<int>)
      requires IsDepth(nodes, depth)
      ensures d == if parent !in nodes then None
                   else Some(if depth[parent] < WALK_LIMIT then depth[parent] else WALK_LIMIT)
    {
      if parent !in nodes { return None; }
      var here, level := parent, 1;
      assert Settled(nodes, depth, here);
      while level < WALK_LIMIT && nodes[here].parent.Some?
        invariant here in nodes && 1 <= level <= WALK_LIMIT && depth[here] + level - 1 == depth[parent]
        invariant Settled(nodes, depth, here)
        decreases depth[here]
      {
        here := nodes[here].parent.value;
        level := level + 1;
        assert Settled(nodes, depth, here);
      }
      return Some(level);
    }

    /** Inserting a leaf keeps the forest. */
    method Insert(id: Id, node: Node)
      requires Valid() && id !in nodes && Hangs(nodes, depth, node) && IsFree(nodes, node.parent, node.nameKey)
      modifies this`nodes, this`depth
      ensures IsDepth(nodes, depth) && NamesAreUnique(nodes) && Shallow(nodes, depth)
      ensures nodes == old(nodes)[id := node] && |nodes| == |old(nodes)| + 1
      ensures forall n | n in old(nodes) :: depth[n] == old(depth)[n]
      ensures WithinLimits(old(nodes), old(depth)) ==>
                (WithinLimits(nodes, depth) <==> HasRoom(old(nodes), old(depth), node.parent))
    {
      hide Settled, Shallow, NamesAreUnique, WithinLimits, HasRoom, IsFree;
      if WithinLimits(nodes, depth) { LeafNeedsRoom(nodes, depth, id, node); }
      LeafIsSettled(nodes, depth, id, node);
      LeafKeepsLimits(nodes, depth, id, node);
      depth := depth[id := DepthBelow(depth, node.parent)];
      nodes := nodes[id := node];
    }

    /**
     The checks in their order. `mayCreate` is the caller's right to create in the parent. A folder is created
     exactly when every check passes; it then lies at most at the maximum depth.
     */
    method CreateFolder(isAdmin: bool, mayCreate: bool, id: Id, parent: Option<Id>, name: string, key: seq<Byte>)
      returns (outcome: Outcome)
      requires Valid()
      modifies this`nodes, this`depth
      ensures Valid()
      ensures outcome.Done? <==>
                && 1 <= |name| <= 255 && name[0] != ' ' && name[|name| - 1] != ' ' && 1 <= |key| <= 1024
                && (isAdmin || (parent.Some? && mayCreate))
                && (parent.Some? ==> parent.value in old(nodes) && old(nodes)[parent.value].isFolder
                                     && old(depth)[parent.value] < 256)
                && |old(nodes)| < 10000 && id !in old(nodes) && IsFree(old(nodes), parent, key)
      ensures nodes == if outcome.Done? then old(nodes)[id := Node(parent, true, key)] else old(nodes)
      ensures outcome.TooDeep? ==> parent.Some? && parent.value in nodes && depth[parent.value] == MAXIMUM_DEPTH
      ensures outcome.Denied? ==> !isAdmin
    {
      hide Settled, NamesAreUnique, WithinLimits, HasRoom, IsFree;
      if !ValidName(name, key) { return Invalid; }
      if !isAdmin && (parent.None? || !mayCreate) { return Denied; }
      if parent.Some? {
        var d := CappedDepth(parent.value);
        if d.None? || !nodes[parent.value].isFolder {
          return if isAdmin then Invalid else Denied;
        }
        if d.value >= MAXIMUM_DEPTH { return TooDeep; }
      }
      if |nodes| >= MAXIMUM_NODES { return TooMany; }
      if id in nodes { return KeyTaken; }
      if !IsFree(nodes, parent, key) { return NameTaken; }
      Insert(id, Node(parent, true, key));
      return Done;
    }

    /**
     A finished upload hangs a file into a readable folder, or at the root for an administrator. It keeps the library
     within the limits exactly if there were fewer nodes than allowed and the folder is not at the maximum depth.
     */
    method AddFile(isAdmin: bool, mayRead: bool, id: Id, parent: Option<Id>, key: seq<Byte>) returns (outcome: Outcome)
      requires Valid()
      modifies this
      ensures Valid()
      ensures nodes == if outcome.Done? then old(nodes)[id := Node(parent, false, key)] else old(nodes)
      ensures uploads == if outcome.Done? then old(uploads) + 1 else old(uploads)
      ensures outcome.Done? <==>
                && (isAdmin || parent.Some?) && id !in old(nodes) && IsFree(old(nodes), parent, key)
                && (parent.Some? ==> parent.value in old(nodes) && old(nodes)[parent.value].isFolder && mayRead)
      ensures outcome.Done? && WithinLimits(old(nodes), old(depth)) ==>
                (WithinLimits(nodes, depth) <==> HasRoom(old(nodes), old(depth), parent))
    {
      hide Settled, Shallow, NamesAreUnique, WithinLimits, HasRoom;
      if !isAdmin && parent.None? { return Invalid; }
      if parent.Some? && (parent.value !in nodes || !nodes[parent.value].isFolder || !mayRead) { return Denied; }
      if id in nodes { return KeyTaken; }
      if !IsFree(nodes, parent, key) { return NameTaken; }
      Insert(id, Node(parent, false, key));
      uploads := uploads + 1;
      return Done;
    }

    /** The recursive query downward from a node, level by level. */
    method Subtree(n: Id) returns (under: set<Id>, height: nat)
      requires Valid() && n in nodes
      ensures forall x :: x in under <==> x in nodes && IsUnder(nodes, depth, x, n)
      ensures forall x | x in under :: depth[x] <= depth[n] + height
      ensures exists x :: x in under && depth[x] == depth[n] + height
    {
      var level := {n};
      under, height := level, 0;
      TopLevel(nodes, depth, n);
      var next := Children(nodes, level);
      while next != {}
        invariant level != {} && IsLevel(nodes, depth, level, n, height) && next == Children(nodes, level)
        invariant IsSubtree(nodes, depth, under, n, height)
        decreases MAXIMUM_DEPTH + 1 - height
      {
        NextLevel(nodes, depth, level, n, height);
        ghost var deeper := AnyOf(next);
        assert depth[deeper] == depth[n] + height + 1 && Settled(nodes, depth, n);
        under, level, height := under + next, next, height + 1;
        next := Children(nodes, level);
      }
      NextLevel(nodes, depth, level, n, height);
      NothingDeeper(nodes, depth, n, height);
      ghost var deepest := AnyOf(level);
      assert deepest in under && depth[deepest] == depth[n] + height;
    }

    /**
     Moving a node with everything below it. The move is made exactly when the target is the root or a folder
     outside the moved subtree, nothing would end up below the maximum depth, and the name is free there.
     */
    method MoveNode(n: Id, target: Option<Id>) returns (outcome: Outcome)
      requires Valid()
      modifies this`nodes, this`depth
      ensures Valid()
      ensures outcome.Done? <==>
                && n in old(nodes) && MayReceive(old(nodes), old(depth), n, target)
                && Fits(old(nodes), old(depth), n, target) && NameIsFreeAt(old(nodes), n, target)
      ensures nodes == if outcome.Done? then Moved(old(nodes), n, target) else old(nodes)
    {
      if n !in nodes { return Invalid; }
      if target == Some(n) { return Invalid; }
      if target.Some? && (target.value !in nodes || !nodes[target.value].isFolder) { return Invalid; }
      var cyclic, fits := Measure(n, target);
      if cyclic { return Cyclic; }
      if !fits { return TooDeep; }
      if !NameIsFreeAt(nodes, n, target) { return NameTaken; }
      Relocate(n, target);
      return Done;
    }

    /** Whether the target lies below the node, and whether the whole subtree would stay within the depth limit. */
    method Measure(n: Id, target: Option<Id>) returns (cyclic: bool, fits: bool)
      requires Valid() && n in nodes && (target.Some? ==> target.value in nodes)
      ensures cyclic <==> target.Some? && IsUnder(nodes, depth, target.value, n)
      ensures !cyclic ==> (fits <==> Fits(nodes, depth, n, target))
    {
      var under, height := Subtree(n);
      if target.Some? && target.value in under { return true, false; }
      var room := RoomBelow(target);
      FitsByHeight(nodes, depth, n, target, under, height);
      return false, height <= room;
    }

    /** How many levels the limit leaves below a node hung under the target. */
    method RoomBelow(target: Option<Id>) returns (room: int)
      requires IsDepth(nodes, depth) && (target.Some? ==> target.value in nodes)
      ensures room == MAXIMUM_DEPTH - DepthBelow(depth, target)
    {
      var targetDepth := 0;
      if target.Some? { targetDepth := FullDepth(target.value); }
      return MAXIMUM_DEPTH - (targetDepth + 1);
    }

    method Relocate(n: Id, target: Option<Id>)
      requires Valid() && n in nodes && MayReceive(nodes, depth, n, target)
      requires Fits(nodes, depth, n, target) && NameIsFreeAt(nodes, n, target)
      modifies this`nodes, this`depth
      ensures Valid() && nodes == Moved(old(nodes), n, target)
    {
      MoveIsSound(nodes, depth, n, target);
      depth := MovedDepth(nodes, depth, n, target);
      nodes := Moved(nodes, n, target);
    }

    /** The same climb without a cap, for the target of a move. */
    method FullDepth(x: Id) returns (d: int)
      requires IsDepth(nodes, depth) && x in nodes
      ensures d == depth[x]
    {
      var here := x;
      d := 1;
      assert Settled(nodes, depth, here);
      while nodes[here].parent.Some?
        invariant here in nodes && depth[here] + d - 1 == depth[x] && Settled(nodes, depth, here)
        decreases depth[here]
      {
        here := nodes[here].parent.value;
        d := d + 1;
        assert Settled(nodes, depth, here);
      }
    }
  }

  // ---------- libraries beyond the limits ----------

  /** Folder within folder, all of the same name. */
  predicate IsLink(f: Forest, k: nat) {
    k in f && f[k] == Node(EndOf(k), true, [0])
  }

  predicate HasChain(f: Forest, n: nat) {
    forall k: nat | k < n :: IsLink(f, k)
  }

  lemma {:induction false} ChainDepth(f: Forest, depth: map<Id, int>, n: nat, k: nat)
    requires IsDepth(f, depth) && HasChain(f, n) && k < n
    ensures k in f && depth[k] == k + 1
  {
    assert IsLink(f, k) && Settled(f, depth, k);
    if k > 0 { ChainDepth(f, depth, n, k - 1); }
  }

  predicate IsChain(f: Forest, n: nat) {
    HasChain(f, n) && |f| == n && forall k | k in f :: 0 <= k < n
  }

  function EndOf(n: nat): Option<Id> {
    if n == 0 then None else Some(n - 1)
  }

  /** One more link can be hung below the last. */
  lemma ChainEnds(f: Forest, depth: map<Id, int>, n: nat)
    requires IsDepth(f, depth) && IsChain(f, n)
    ensures n > 0 ==> n - 1 in f && f[n - 1].isFolder && depth[n - 1] == n
    ensures n !in f && IsFree(f, EndOf(n), [0])
  {
    hide IsDepth, Settled;
    forall k | k in f ensures f[k].parent != EndOf(n) {
      assert IsLink(f, k);
    }
    if n > 0 {
      ChainDepth(f, depth, n, n - 1);
      assert IsLink(f, n - 1);
    }
  }

  lemma ChainGrows(f: Forest, n: nat)
    requires IsChain(f, n)
    ensures IsChain(f[n := Node(EndOf(n), true, [0])], n + 1)
  {
    var f' := f[n := Node(EndOf(n), true, [0])];
    forall k: nat | k < n + 1 ensures IsLink(f', k) {
      if k < n { assert IsLink(f, k); }
    }
  }

  lemma NoChain()
    ensures IsChain(map[], 0)
  {
  }

  lemma FileBelow(folders: Forest, f: Forest, depth: map<Id, int>, file: nat)
    requires IsChain(folders, file) && file > 0 && f == folders[file := Node(Some(file - 1), false, [0])]
    requires IsDepth(f, depth)
    ensures file in f && file in depth && depth[file] == file + 1
  {
    forall k: nat | k < file ensures IsLink(f, k) {
      assert IsLink(folders, k);
    }
    ChainDepth(f, depth, file, file - 1);
    assert Settled(f, depth, file);
  }

  /** Folders nested as deep as possible, and a file in the last of them. */
  method DeepLibrary() returns (library: Library, file: Id)
    ensures library.Valid() && file in library.nodes && library.depth[file] == MAXIMUM_DEPTH + 1
  {
    hide IsDepth, Settled, HasChain, IsFree, Shallow, NamesAreUnique;
    library := new Library();
    NoChain();
    var outcome;
    for i := 0 to MAXIMUM_DEPTH
      invariant library.Valid() && fresh(library) && IsChain(library.nodes, i)
    {
      ChainEnds(library.nodes, library.depth, i);
      ChainGrows(library.nodes, i);
      outcome := library.CreateFolder(true, true, i, EndOf(i), "folder", [0]);
    }
    file := MAXIMUM_DEPTH;
    ChainEnds(library.nodes, library.depth, file);
    ghost var folders := library.nodes;
    outcome := library.AddFile(true, true, file, Some(file - 1), [0]);
    FileBelow(folders, library.nodes, library.depth, file);
  }

  /** One file more than there may be nodes. */
  method LargeLibrary() returns (library: Library)
    ensures library.Valid() && |library.nodes| == MAXIMUM_NODES + 1
  {
    library := new Library();
    assert Capacity(2) == 256 * Capacity(1) && Capacity(1) == 256 * Capacity(0);
    for i := 0 to MAXIMUM_NODES + 1
      invariant library.Valid() && fresh(library) && |library.nodes| == i
      invariant forall n | n in library.nodes :: 0 <= n < i && library.nodes[n].nameKey == ToBytes(n, 2)
    {
      forall n | n in library.nodes ensures ToBytes(n, 2) != ToBytes(i, 2) {
        ToBytesInverse(n, 2);
        ToBytesInverse(i, 2);
      }
      var outcome := library.AddFile(true, true, i, None, ToBytes(i, 2));
    }
  }
}
