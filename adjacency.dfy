/**
 * The adjacency-list backend (`Backend/Db/Adjacency.php`): every row of the
 * tree table stores the id of its parent. Paths are read by following `pid`
 * upwards one lookup at a time, subtrees by asking for children recursively.
 *
 * Nothing in the backend prevents a cycle of `pid` links, on which its walks
 * would never end; the reads therefore require `Acyclic`, and lemmas say
 * which updates keep it.
 */
module Adjacency {
  import opened Wrappers
  import opened TreeTable
  import opened TableQueries
  import opened DbBackend
  import DataStore

  /** The adjacency tree table: its `pid` column and its auto-increment counter. */
  datatype Tree = Tree(parents: Parents, next: Id)

  // ---------------------------------------------------------------------
  // Children

  /** The ids of `order` whose row has the parent `p`, in the order of `order`. */
  function ChildrenIn(t: Parents, order: seq<Id>, p: Id): (cs: seq<Id>)
    requires forall i :: 0 <= i < |order| ==> order[i] in t
    ensures forall i :: 0 <= i < |cs| ==> cs[i] in t && t[cs[i]] == Some(p)
    ensures forall c :: c in cs <==> c in order && c in t && t[c] == Some(p)
    ensures NoDups(order) ==> NoDups(cs)
  {
    if order == [] then []
    else
      var rest := ChildrenIn(t, order[1..], p);
      if t[order[0]] == Some(p) then [order[0]] + rest else rest
  }

  /**
   * `fetchChildren` (through `_fetchChildRecords`): the rows whose `pid` is
   * `p`, in store order. An unknown `p` simply has no children.
   */
  function FetchChildren(tb: Tree, p: Id): (cs: seq<Id>)
    ensures forall i :: 0 <= i < |cs| ==> cs[i] in tb.parents && tb.parents[cs[i]] == Some(p)
    ensures Ahead(tb.parents, tb.next) ==> forall c :: c in cs <==> c in tb.parents && tb.parents[c] == Some(p)
    ensures NoDups(cs)
  {
    ChildrenIn(tb.parents, KeysBelow(tb.parents, tb.next), p)
  }

  /** The set of rows whose parent is `p`. */
  ghost function ChildSet(t: Parents, p: Id): set<Id> {
    set c | c in t && t[c] == Some(p)
  }

  /** `getChildCount`: `count(id)` of the rows with `pid = p`. */
  function GetChildCount(tb: Tree, p: Id): (n: nat)
    ensures Ahead(tb.parents, tb.next) ==> n == |ChildSet(tb.parents, p)|
  {
    var cs := FetchChildren(tb, p);
    NoDupsCard(cs);
    assert Ahead(tb.parents, tb.next) ==> Elems(cs) == ChildSet(tb.parents, p);
    |cs|
  }

  /** `hasChildNodes`: the child count is positive, that is, some row has `p` as parent. */
  function HasChildNodes(tb: Tree, p: Id): (b: bool)
    ensures Ahead(tb.parents, tb.next) ==> (b <==> exists c :: c in tb.parents && tb.parents[c] == Some(p))
  {
    var n := GetChildCount(tb, p);
    assert forall c :: c in tb.parents && tb.parents[c] == Some(p) ==> c in ChildSet(tb.parents, p);
    n > 0
  }

  /** `isChildOf`: the child's `pid` is exactly the given parent id; an unknown child throws. */
  function IsChildOf(tb: Tree, c: Id, p: Option<Id>): (r: Result<bool, TreeError>)
    ensures r.Err? <==> c !in tb.parents
    ensures r.Err? ==> r.error == NodeNotFound(c)
    ensures r.Ok? ==> (r.value <==> tb.parents[c] == p)
  {
    var pid :- ParentId(tb.parents, c);
    Ok(p == pid)
  }

  /** A row is a child of `p` exactly when `fetchChildren(p)` lists it. */
  lemma ChildOfListed(tb: Tree, c: Id, p: Id)
    requires Ahead(tb.parents, tb.next)
    ensures IsChildOf(tb, c, Some(p)) == Ok(true) <==> c in FetchChildren(tb, p)
  {
  }

  /**
   * `isSiblingOf`: both rows exist (the first is looked up first), have the
   * same `pid`, and are different rows.
   */
  function IsSiblingOf(tb: Tree, c1: Id, c2: Id): (r: Result<bool, TreeError>)
    ensures c1 !in tb.parents ==> r == Err(NodeNotFound(c1))
    ensures c1 in tb.parents && c2 !in tb.parents ==> r == Err(NodeNotFound(c2))
    ensures r.Ok? ==> (r.value <==> tb.parents[c1] == tb.parents[c2] && c1 != c2)
  {
    var p1 :- ParentId(tb.parents, c1);
    var p2 :- ParentId(tb.parents, c2);
    Ok(p1 == p2 && c1 != c2)
  }

  /** Being siblings is symmetric and irreflexive, and two different children of one node are siblings. */
  lemma SiblingsSymmetric(tb: Tree, c1: Id, c2: Id, p: Id)
    ensures IsSiblingOf(tb, c1, c2) == Ok(true) ==> IsSiblingOf(tb, c2, c1) == Ok(true)
    ensures IsSiblingOf(tb, c1, c1) != Ok(true)
    ensures c1 in FetchChildren(tb, p) && c2 in FetchChildren(tb, p) && c1 != c2 ==> IsSiblingOf(tb, c1, c2) == Ok(true)
  {
  }

  // ---------------------------------------------------------------------
  // Walking up the pid links

  /** How a walk up the `pid` links ends. */
  datatype End =
    | AtRoot      // at a row whose `pid` is null
    | AtMissing   // at an id that has no row: the last id of the line
    | OutOfFuel   // the step budget ran out

  /** The ids a walk visits, the start first, and how it ends. */
  datatype Walk = Walk(line: seq<Id>, end: End)

  /** The id at `i` has a row whose parent is the id after it. */
  ghost predicate Step(t: Parents, s: seq<Id>, i: nat)
    requires i + 1 < |s|
  {
    s[i] in t && t[s[i]] == Some(s[i + 1])
  }

  /** Each id of `s` but the last has a row whose parent is the id after it. */
  ghost predicate Linked(t: Parents, s: seq<Id>) {
    forall i: nat :: i + 1 < |s| ==> Step(t, s, i)
  }

  /** The walk from `a` up the `pid` links, following at most `fuel` links. */
  function Climb(t: Parents, a: Id, fuel: nat): (w: Walk)
    ensures 1 <= |w.line| <= fuel + 2 && w.line[0] == a
    ensures Linked(t, w.line)
    ensures w.end == AtRoot ==> w.line[|w.line| - 1] in t && t[w.line[|w.line| - 1]] == None
    ensures w.end == AtMissing ==> w.line[|w.line| - 1] !in t
    ensures w.end == OutOfFuel ==> w.line[|w.line| - 1] in t && t[w.line[|w.line| - 1]].Some?
    decreases fuel
  {
    if a !in t then Walk([a], AtMissing)
    else match t[a]
      case None => Walk([a], AtRoot)
      case Some(p) =>
        if fuel == 0 then Walk([a], OutOfFuel)
        else
          var w := Climb(t, p, fuel - 1);
          LinkedCons(t, a, w.line);
          Walk([a] + w.line, w.end)
  }

  lemma LinkedCons(t: Parents, a: Id, s: seq<Id>)
    requires Linked(t, s) && |s| >= 1 && a in t && t[a] == Some(s[0])
    ensures Linked(t, [a] + s)
  {
    var s' := [a] + s;
    forall i: nat | i + 1 < |s'| ensures Step(t, s', i) {
      if i > 0 {
        assert Step(t, s, i - 1);
        assert s'[i] == s[i - 1] && s'[i + 1] == s[i];
      }
    }
  }

  /** No walk from a stored row runs out of `|t|` steps: the `pid` links form no cycle. */
  ghost predicate Acyclic(t: Parents) {
    forall a {:trigger Climb(t, a, |t|)} :: a in t ==> Climb(t, a, |t|).end != OutOfFuel
  }

  /** The whole walk up from `a`. */
  ghost function WalkUp(t: Parents, a: Id): Walk {
    Climb(t, a, |t|)
  }

  /** Under `Acyclic` every walk ends at a root or at a missing row. */
  lemma NoLoop(t: Parents, a: Id)
    requires Acyclic(t)
    ensures WalkUp(t, a).end != OutOfFuel
  {
  }

  /** What the lookup of the id at position `k` of a whole walk yields. */
  lemma WalkAt(t: Parents, x: Id, k: nat)
    requires Acyclic(t) && k < |WalkUp(t, x).line|
    ensures var w := WalkUp(t, x); var b := w.line[k];
      && (b !in t <==> k == |w.line| - 1 && w.end == AtMissing)
      && (b in t && t[b] == None <==> k == |w.line| - 1 && w.end == AtRoot)
      && (b in t && t[b].Some? ==> k + 1 < |w.line| && t[b].value == w.line[k + 1])
  {
    NoLoop(t, x);
    var w := WalkUp(t, x);
    if k + 1 < |w.line| {
      assert Step(t, w.line, k);
    }
  }

  /** A walk that ends within `f` steps is the same with any budget that covers its steps. */
  lemma {:induction false} ClimbSteps(t: Parents, a: Id, f: nat, g: nat)
    requires Climb(t, a, f).end != OutOfFuel && g >= |Climb(t, a, f).line| - 1
    ensures Climb(t, a, g) == Climb(t, a, f)
    decreases f
  {
    if a in t && t[a].Some? {
      ClimbSteps(t, t[a].value, f - 1, g - 1);
    }
  }

  /** The walk from a child is the child followed by the walk from its parent. */
  lemma ChildLine(t: Parents, a: Id, c: Id)
    requires Acyclic(t) && c in t && t[c] == Some(a)
    ensures WalkUp(t, c) == Walk([c] + WalkUp(t, a).line, WalkUp(t, a).end)
  {
    assert Climb(t, c, |t|).end != OutOfFuel;
    ClimbSteps(t, a, |t| - 1, |t|);
  }

  /** Every id on a walk starts the rest of that walk. */
  lemma {:induction false} LineSuffix(t: Parents, a: Id, i: nat)
    requires Acyclic(t) && i < |WalkUp(t, a).line|
    ensures WalkUp(t, WalkUp(t, a).line[i]) == Walk(WalkUp(t, a).line[i..], WalkUp(t, a).end)
    decreases i
  {
    if i > 0 {
      var p := t[a].value;
      ChildLine(t, p, a);
      LineSuffix(t, p, i - 1);
      assert WalkUp(t, a).line[i..] == WalkUp(t, p).line[i - 1..];
    }
  }

  /** A walk visits no id twice. */
  lemma LineNoDups(t: Parents, a: Id)
    requires Acyclic(t)
    ensures NoDups(WalkUp(t, a).line)
  {
    var s := WalkUp(t, a).line;
    forall i, j | 0 <= i < j < |s| ensures s[i] != s[j] {
      LineSuffix(t, a, i);
      LineSuffix(t, a, j);
    }
  }

  /** A child of `a` on the walk from `b` is followed by `a`. */
  lemma ChildOnLine(t: Parents, a: Id, c: Id, b: Id) returns (j: nat)
    requires Acyclic(t) && c in t && t[c] == Some(a) && c in WalkUp(t, b).line
    ensures j + 1 < |WalkUp(t, b).line| && WalkUp(t, b).line[j] == c && WalkUp(t, b).line[j + 1] == a
  {
    j :| 0 <= j < |WalkUp(t, b).line| && WalkUp(t, b).line[j] == c;
    WalkAt(t, b, j);
  }

  /** No walk passes through two different children of the same node. */
  lemma OneChildOnLine(t: Parents, a: Id, c1: Id, c2: Id, b: Id)
    requires Acyclic(t) && c1 in t && t[c1] == Some(a) && c2 in t && t[c2] == Some(a)
    requires c1 in WalkUp(t, b).line && c2 in WalkUp(t, b).line
    ensures c1 == c2
  {
    var j1 := ChildOnLine(t, a, c1, b);
    var j2 := ChildOnLine(t, a, c2, b);
    LineNoDups(t, b);
  }

  /** The room left above the walk from `a`: it shrinks from a node to its children. */
  ghost function Height(t: Parents, a: Id): nat {
    |t| + 2 - |WalkUp(t, a).line|
  }

  lemma ChildHeight(t: Parents, a: Id, c: Id)
    requires Acyclic(t) && c in t && t[c] == Some(a)
    ensures Height(t, c) < Height(t, a)
  {
    ChildLine(t, a, c);
  }

  /** The descendants of `a`: the other rows whose walk passes through `a`. */
  ghost function Descendants(t: Parents, a: Id): set<Id> {
    set b | b in t && b != a && a in WalkUp(t, b).line
  }

  // ---------------------------------------------------------------------
  // Path reads

  /**
   * `fetchPath`: starting from the node, `_getParentId` is followed until
   * it yields null, and the collected ids are returned reversed, root first.
   * An id without row on the way throws.
   */
  method FetchPath(tb: Tree, x: Id) returns (r: Result<seq<Id>, TreeError>)
    requires Acyclic(tb.parents)
    ensures var w := WalkUp(tb.parents, x);
      && (w.end == AtRoot ==> r == Ok(Reversed(w.line)))
      && (w.end == AtMissing ==> r == Err(NodeNotFound(w.line[|w.line| - 1])))
  {
    var t := tb.parents;
    ghost var w := WalkUp(t, x);
    var nodes := [x];
    WalkAt(t, x, 0);
    var n :- ParentId(t, x);
    while n.Some?
      invariant |nodes| <= |w.line| && nodes == w.line[..|nodes|]
      invariant n.Some? ==> |nodes| < |w.line| && n.value == w.line[|nodes|]
      invariant n.None? ==> w.end == AtRoot && |nodes| == |w.line|
      decreases |w.line| - |nodes|
    {
      var b := n.value;
      WalkAt(t, x, |nodes|);
      nodes := nodes + [b];
      n :- ParentId(t, b);
    }
    assert nodes == w.line;
    return Ok(Reversed(nodes));
  }

  /** The path read lists a root first and the node last, each id the parent of the next, none twice. */
  lemma FetchPathShape(tb: Tree, x: Id)
    requires Acyclic(tb.parents) && WalkUp(tb.parents, x).end == AtRoot
    ensures var s := Reversed(WalkUp(tb.parents, x).line);
      && s[|s| - 1] == x && s[0] in tb.parents && tb.parents[s[0]] == None
      && (forall i :: 1 <= i < |s| ==> s[i] in tb.parents && tb.parents[s[i]] == Some(s[i - 1]))
      && NoDups(s)
  {
    var t := tb.parents;
    var w := WalkUp(t, x).line;
    var s := Reversed(w);
    assert s[|s| - 1] == w[0] && s[0] == w[|w| - 1];
    forall i | 1 <= i < |s| ensures s[i] in t && t[s[i]] == Some(s[i - 1]) {
      var k := |w| - 1 - i;
      assert Step(t, w, k);
      assert s[i] == w[k] && s[i - 1] == w[k + 1];
    }
    LineNoDups(t, x);
    forall i, j | 0 <= i < j < |s| ensures s[i] != s[j] {
      assert s[i] == w[|w| - 1 - i] && s[j] == w[|w| - 1 - j];
    }
  }

  /** `getPathLength`: the number of `pid` links from the node up to its root. */
  method GetPathLength(tb: Tree, x: Id) returns (r: Result<nat, TreeError>)
    requires Acyclic(tb.parents)
    ensures var w := WalkUp(tb.parents, x);
      && (w.end == AtRoot ==> r == Ok(|w.line| - 1))
      && (w.end == AtMissing ==> r == Err(NodeNotFound(w.line[|w.line| - 1])))
  {
    var t := tb.parents;
    ghost var w := WalkUp(t, x);
    var length := 0;
    WalkAt(t, x, 0);
    var n :- ParentId(t, x);
    while n != None
      invariant length + 1 <= |w.line|
      invariant n.Some? ==> length + 1 < |w.line| && n.value == w.line[length + 1]
      invariant n.None? ==> w.end == AtRoot && length + 1 == |w.line|
      decreases |w.line| - length
    {
      var b := n.value;
      WalkAt(t, x, length + 1);
      n :- ParentId(t, b);
      length := length + 1;
    }
    return Ok(length);
  }

  /** The path length counts the node's strict ancestors: zero for a root. */
  lemma PathLengthCountsAncestors(tb: Tree, x: Id)
    requires Acyclic(tb.parents) && x in tb.parents
    ensures WalkUp(tb.parents, x).end == AtRoot ==>
      |WalkUp(tb.parents, x).line| - 1 == |Elems(WalkUp(tb.parents, x).line) - {x}|
    ensures tb.parents[x] == None ==> WalkUp(tb.parents, x) == Walk([x], AtRoot)
  {
    var w := WalkUp(tb.parents, x).line;
    LineNoDups(tb.parents, x);
    NoDupsCard(w);
  }

  /** Whether `isDescendantOf(c, p)` finds `p` on the walk from `c`, and what it returns. */
  function DescendantVerdict(w: Walk, p: Option<Id>): Result<bool, TreeError>
    requires |w.line| >= 1
  {
    var hit := p.Some? && p.value in w.line[1..];
    if w.end == AtRoot then Ok(hit || p.None?)
    else if hit then Ok(true)
    else Err(NodeNotFound(w.line[|w.line| - 1]))
  }

  /**
   * `isDescendantOf`: from the child, `_getParentId` is followed and each id
   * it returns (null included) is compared with `p`; the walk stops with true
   * at the first match and with false after null. The child itself is never
   * compared.
   */
  method IsDescendantOf(tb: Tree, c: Id, p: Option<Id>) returns (r: Result<bool, TreeError>)
    requires Acyclic(tb.parents)
    ensures r == DescendantVerdict(WalkUp(tb.parents, c), p)
  {
    var t := tb.parents;
    ghost var w := WalkUp(t, c);
    ghost var k := 0;
    WalkAt(t, c, 0);
    if c !in t {
      VerdictMissed(w, p, 0);
    }
    var n :- ParentId(t, c);
    if p == n {
      VerdictFound(w, p, 1);
      return Ok(true);
    }
    while n.Some?
      invariant k < |w.line| && p != n && (p.Some? ==> p.value !in w.line[1..k + 1])
      invariant n.Some? ==> k + 1 < |w.line| && n.value == w.line[k + 1]
      invariant n.None? ==> w.end == AtRoot && k + 1 == |w.line|
      decreases |w.line| - k
    {
      var b := n.value;
      WalkAt(t, c, k + 1);
      TailSnoc(w.line, k);
      k := k + 1;
      if b !in t {
        VerdictMissed(w, p, k);
      }
      n :- ParentId(t, b);
      if p == n {
        VerdictFound(w, p, k + 1);
        return Ok(true);
      }
    }
    VerdictMissed(w, p, k);
    return Ok(false);
  }

  /**
   * A walk whose id at position `k >= 1` is `p` makes `p` an ancestor, and
   * so does a walk that ends at a root when `p` is null.
   */
  lemma VerdictFound(w: Walk, p: Option<Id>, k: nat)
    requires 1 <= k <= |w.line|
    requires (k < |w.line| && p == Some(w.line[k])) || (k == |w.line| && w.end == AtRoot && p.None?)
    ensures DescendantVerdict(w, p) == Ok(true)
  {
    if k < |w.line| {
      assert w.line[1..][k - 1] == w.line[k];
    }
  }

  /** A walk of which no id after the first is `p` ends with false at a root and throws at a missing row. */
  lemma VerdictMissed(w: Walk, p: Option<Id>, k: nat)
    requires k + 1 == |w.line| && (p.Some? ==> p.value !in w.line[1..k + 1])
    ensures w.end == AtRoot ==> DescendantVerdict(w, p) == Ok(p.None?)
    ensures w.end == AtMissing ==> DescendantVerdict(w, p) == Err(NodeNotFound(w.line[k]))
  {
    assert w.line[1..] == w.line[1..k + 1];
  }

  /** The ids after the first up to position `k + 1`, extended by one. */
  lemma TailSnoc(s: seq<Id>, k: nat)
    requires k + 2 <= |s|
    ensures s[1..k + 2] == s[1..k + 1] + [s[k + 1]]
  {
  }

  /** A node is never its own descendant. */
  lemma NotOwnDescendant(tb: Tree, x: Id)
    requires Acyclic(tb.parents)
    ensures DescendantVerdict(WalkUp(tb.parents, x), Some(x)) != Ok(true)
  {
    LineNoDups(tb.parents, x);
    var w := WalkUp(tb.parents, x).line;
    assert x !in w[1..] by {
      forall k | 0 <= k < |w[1..]| ensures w[1..][k] != x {
        assert w[1..][k] == w[k + 1] && w[0] == x;
      }
    }
  }

  // ---------------------------------------------------------------------
  // Subtree reads

  /**
   * The subtree of `a` in the order of `fetchSubtreeDepthFirst`: `a`, then
   * each child in store order followed by that child's subtree.
   */
  ghost function DepthFirst(tb: Tree, a: Id): (s: seq<Id>)
    requires Acyclic(tb.parents)
    ensures |s| >= 1 && s[0] == a
    decreases Height(tb.parents, a), 1, 0
  {
    [a] + DepthFirstAll(tb, a, FetchChildren(tb, a))
  }

  /** The children `cs` of `a` are rows whose parent is `a`. */
  ghost predicate ChildrenOf(tb: Tree, a: Id, cs: seq<Id>) {
    forall i :: 0 <= i < |cs| ==> cs[i] in tb.parents && tb.parents[cs[i]] == Some(a)
  }

  /** The subtrees of the children `cs` of `a`, one after another. */
  ghost function DepthFirstAll(tb: Tree, a: Id, cs: seq<Id>): seq<Id>
    requires Acyclic(tb.parents) && ChildrenOf(tb, a, cs)
    decreases Height(tb.parents, a), 0, |cs|
  {
    if cs == [] then []
    else
      var c := cs[|cs| - 1];
      ChildHeight(tb.parents, a, c);
      DepthFirstAll(tb, a, cs[..|cs| - 1]) + DepthFirst(tb, c)
  }

  /** What `_addChildNodesBreadthFirst` appends for `a`: all its children, then what it appends for each child. */
  ghost function BreadthFirst(tb: Tree, a: Id): seq<Id>
    requires Acyclic(tb.parents)
    decreases Height(tb.parents, a), 1, 0
  {
    var cs := FetchChildren(tb, a);
    cs + BreadthFirstAll(tb, a, cs)
  }

  /** What `_addChildNodesBreadthFirst` appends for each of the children `cs` of `a`, one after another. */
  ghost function BreadthFirstAll(tb: Tree, a: Id, cs: seq<Id>): seq<Id>
    requires Acyclic(tb.parents) && ChildrenOf(tb, a, cs)
    decreases Height(tb.parents, a), 0, |cs|
  {
    if cs == [] then []
    else
      var c := cs[|cs| - 1];
      ChildHeight(tb.parents, a, c);
      BreadthFirstAll(tb, a, cs[..|cs| - 1]) + BreadthFirst(tb, c)
  }

  /** Extending the children by one appends that child's subtree. */
  lemma DepthFirstAllSnoc(tb: Tree, a: Id, cs: seq<Id>, i: nat)
    requires Acyclic(tb.parents) && ChildrenOf(tb, a, cs) && i < |cs|
    ensures DepthFirstAll(tb, a, cs[..i + 1]) == DepthFirstAll(tb, a, cs[..i]) + DepthFirst(tb, cs[i])
  {
    assert cs[..i + 1][..i] == cs[..i];
  }

  /** Extending the children by one appends what the breadth-first walk appends for that child. */
  lemma BreadthFirstAllSnoc(tb: Tree, a: Id, cs: seq<Id>, i: nat)
    requires Acyclic(tb.parents) && ChildrenOf(tb, a, cs) && i < |cs|
    ensures BreadthFirstAll(tb, a, cs[..i + 1]) == BreadthFirstAll(tb, a, cs[..i]) + BreadthFirst(tb, cs[i])
  {
    assert cs[..i + 1][..i] == cs[..i];
  }

  /** `(l + x) + y` regrouped as `l + (x + y)`. */
  lemma Assoc(l: seq<Id>, x: seq<Id>, y: seq<Id>)
    ensures l + x + y == l + (x + y)
  {
  }

  /** `(l + x) + [c] + y` regrouped as `l + (x + ([c] + y))`. */
  lemma Regroup(l: seq<Id>, x: seq<Id>, c: Id, y: seq<Id>)
    ensures l + x + [c] + y == l + (x + ([c] + y))
  {
  }

  /** An id in the subtree of one child is in the subtrees of the children. */
  lemma {:induction false} IntoChildren(tb: Tree, a: Id, cs: seq<Id>, k: nat, b: Id)
    requires Acyclic(tb.parents) && ChildrenOf(tb, a, cs)
    requires k < |cs| && b in DepthFirst(tb, cs[k])
    ensures b in DepthFirstAll(tb, a, cs)
    decreases |cs|
  {
    var n := |cs| - 1;
    if k < n {
      assert cs[..n][k] == cs[k];
      IntoChildren(tb, a, cs[..n], k, b);
    }
  }

  /** An id in the subtrees of the children is in the subtree of one of them. */
  lemma {:induction false} FromChildren(tb: Tree, a: Id, cs: seq<Id>, b: Id) returns (k: nat)
    requires Acyclic(tb.parents) && ChildrenOf(tb, a, cs)
    requires b in DepthFirstAll(tb, a, cs)
    ensures k < |cs| && b in DepthFirst(tb, cs[k])
    decreases |cs|
  {
    var n := |cs| - 1;
    if b in DepthFirst(tb, cs[n]) {
      k := n;
    } else {
      k := FromChildren(tb, a, cs[..n], b);
      assert cs[..n][k] == cs[k];
    }
  }

  /** On a walk from `b` through another id `a`, the id just before `a` is a child of `a`. */
  lemma ChildBelowOnLine(t: Parents, a: Id, b: Id) returns (c: Id)
    requires Acyclic(t) && a != b && a in WalkUp(t, b).line
    ensures c in t && t[c] == Some(a) && c in WalkUp(t, b).line
  {
    var w := WalkUp(t, b).line;
    var i :| 0 <= i < |w| && w[i] == a;
    assert i != 0;
    c := w[i - 1];
    WalkAt(t, b, i - 1);
  }

  /** The depth-first subtree of `a` holds exactly the ids whose walk passes through `a`. */
  lemma {:induction false} DepthFirstMembers(tb: Tree, a: Id, b: Id)
    requires Acyclic(tb.parents) && Ahead(tb.parents, tb.next)
    ensures b in DepthFirst(tb, a) <==> a in WalkUp(tb.parents, b).line
    decreases Height(tb.parents, a)
  {
    var t := tb.parents;
    var cs := FetchChildren(tb, a);
    var w := WalkUp(t, b).line;
    if b == a {
      assert w[0] == b;
    } else if b in DepthFirst(tb, a) {
      var k := FromChildren(tb, a, cs, b);
      ChildHeight(t, a, cs[k]);
      DepthFirstMembers(tb, cs[k], b);
      var j := ChildOnLine(t, a, cs[k], b);
    } else if a in w {
      var c := ChildBelowOnLine(t, a, b);
      assert c in cs;
      var k :| 0 <= k < |cs| && cs[k] == c;
      ChildHeight(t, a, c);
      DepthFirstMembers(tb, c, b);
      IntoChildren(tb, a, cs, k, b);
      assert false;
    }
  }

  /** The depth-first subtree lists no id twice. */
  lemma {:induction false} DepthFirstNoDups(tb: Tree, a: Id)
    requires Acyclic(tb.parents) && Ahead(tb.parents, tb.next)
    ensures NoDups(DepthFirst(tb, a))
    decreases Height(tb.parents, a), 1, 0
  {
    var t := tb.parents;
    var cs := FetchChildren(tb, a);
    DepthFirstAllNoDups(tb, a, cs);
    var s := DepthFirstAll(tb, a, cs);
    LineNoDups(t, a);
    assert WalkUp(t, a).line[0] == a;
    if a in s {
      var k := FromChildren(tb, a, cs, a);
      ChildHeight(t, a, cs[k]);
      DepthFirstMembers(tb, cs[k], a);
      var j := ChildOnLine(t, a, cs[k], a);
      assert false;
    }
    NoDupsCons(a, s);
  }

  /** Putting an id in front of a list without it keeps it free of duplicates. */
  lemma NoDupsCons(a: Id, s: seq<Id>)
    requires NoDups(s) && a !in s
    ensures NoDups([a] + s)
  {
    var s' := [a] + s;
    forall i, j | 0 <= i < j < |s'| ensures s'[i] != s'[j] {
      assert s'[j] == s[j - 1];
      if i > 0 {
        assert s'[i] == s[i - 1];
      }
    }
  }

  /** Two lists without duplicates and without a common id concatenate to one without duplicates. */
  lemma NoDupsAppend(s1: seq<Id>, s2: seq<Id>)
    requires NoDups(s1) && NoDups(s2) && forall b :: b in s1 ==> b !in s2
    ensures NoDups(s1 + s2)
  {
    var s := s1 + s2;
    forall i, j | 0 <= i < j < |s| ensures s[i] != s[j] {
      if j < |s1| {
        assert s[i] == s1[i] && s[j] == s1[j];
      } else if i >= |s1| {
        assert s[i] == s2[i - |s1|] && s[j] == s2[j - |s1|];
      } else {
        assert s[i] == s1[i] && s[j] == s2[j - |s1|];
        assert s1[i] in s1 && s2[j - |s1|] in s2;
      }
    }
  }

  lemma {:induction false} DepthFirstAllNoDups(tb: Tree, a: Id, cs: seq<Id>)
    requires Acyclic(tb.parents) && Ahead(tb.parents, tb.next) && NoDups(cs) && ChildrenOf(tb, a, cs)
    ensures NoDups(DepthFirstAll(tb, a, cs))
    decreases Height(tb.parents, a), 0, |cs|
  {
    if cs != [] {
      var t := tb.parents;
      var n := |cs| - 1;
      var c := cs[n];
      ChildHeight(t, a, c);
      DepthFirstAllNoDups(tb, a, cs[..n]);
      DepthFirstNoDups(tb, c);
      var s1, s2 := DepthFirstAll(tb, a, cs[..n]), DepthFirst(tb, c);
      forall b | b in s1 ensures b !in s2 {
        var k := FromChildren(tb, a, cs[..n], b);
        var d := cs[..n][k];
        assert d == cs[k];
        ChildHeight(t, a, d);
        DepthFirstMembers(tb, d, b);
        if b in s2 {
          DepthFirstMembers(tb, c, b);
          OneChildOnLine(t, a, d, c, b);
          assert false;
        }
      }
      NoDupsAppend(s1, s2);
    }
  }

  /** The ids of the subtree of `a` are `a` and its descendants. */
  lemma SubtreeElems(tb: Tree, a: Id)
    requires Acyclic(tb.parents) && Ahead(tb.parents, tb.next)
    ensures Elems(DepthFirst(tb, a)) == Descendants(tb.parents, a) + {a}
  {
    var t := tb.parents;
    forall b ensures b in DepthFirst(tb, a) <==> b in Descendants(t, a) + {a} {
      DepthFirstMembers(tb, a, b);
      WalkAt(t, b, 0);
    }
  }

  /** The subtree of `a` lists `a` and each of its descendants exactly once. */
  lemma SubtreeIsDescendants(tb: Tree, a: Id)
    requires Acyclic(tb.parents) && Ahead(tb.parents, tb.next)
    ensures Elems(DepthFirst(tb, a)) == Descendants(tb.parents, a) + {a}
    ensures |DepthFirst(tb, a)| - 1 == |Descendants(tb.parents, a)|
  {
    SubtreeElems(tb, a);
    DepthFirstNoDups(tb, a);
    NoDupsCard(DepthFirst(tb, a));
    assert a !in Descendants(tb.parents, a);
  }

  /** The breadth-first appends hold the same ids as the depth-first subtrees of the children, as a multiset. */
  lemma {:induction false} BreadthFirstAllSame(tb: Tree, a: Id, cs: seq<Id>)
    requires Acyclic(tb.parents) && ChildrenOf(tb, a, cs)
    ensures multiset(DepthFirstAll(tb, a, cs)) == multiset(cs) + multiset(BreadthFirstAll(tb, a, cs))
    decreases Height(tb.parents, a), 0, |cs|
  {
    if cs != [] {
      var n := |cs| - 1;
      var c := cs[n];
      ChildHeight(tb.parents, a, c);
      BreadthFirstAllSame(tb, a, cs[..n]);
      BreadthFirstSame(tb, c);
      var d1, d2 := DepthFirstAll(tb, a, cs[..n]), DepthFirst(tb, c);
      var b1, b2 := BreadthFirstAll(tb, a, cs[..n]), BreadthFirst(tb, c);
      assert DepthFirstAll(tb, a, cs) == d1 + d2;
      assert BreadthFirstAll(tb, a, cs) == b1 + b2;
      MultisetSnoc(cs);
      MultisetsCombine(d1, d2, cs[..n], c, b1, b2);
    }
  }

  /** The ids of a non-empty list: those of all but its last entry, and the last. */
  lemma MultisetSnoc(cs: seq<Id>)
    requires cs != []
    ensures multiset(cs) == multiset(cs[..|cs| - 1]) + multiset{cs[|cs| - 1]}
  {
    assert cs == cs[..|cs| - 1] + [cs[|cs| - 1]];
  }

  /** Two multiset splits added side by side. */
  lemma MultisetsCombine(d1: seq<Id>, d2: seq<Id>, cs: seq<Id>, c: Id, b1: seq<Id>, b2: seq<Id>)
    requires multiset(d1) == multiset(cs) + multiset(b1)
    requires multiset(d2) == multiset{c} + multiset(b2)
    ensures multiset(d1 + d2) == (multiset(cs) + multiset{c}) + multiset(b1 + b2)
  {
    assert multiset(d1 + d2) == multiset(d1) + multiset(d2);
    assert multiset(b1 + b2) == multiset(b1) + multiset(b2);
  }

  /** What the breadth-first walk appends for `a` is the depth-first subtree of `a` without `a`, reordered. */
  lemma {:induction false} BreadthFirstSame(tb: Tree, a: Id)
    requires Acyclic(tb.parents)
    ensures multiset(DepthFirst(tb, a)) == multiset{a} + multiset(BreadthFirst(tb, a))
    decreases Height(tb.parents, a), 1, 0
  {
    var cs := FetchChildren(tb, a);
    BreadthFirstAllSame(tb, a, cs);
    var d, b := DepthFirstAll(tb, a, cs), BreadthFirstAll(tb, a, cs);
    assert multiset([a] + d) == multiset{a} + multiset(d);
    assert multiset(cs + b) == multiset(cs) + multiset(b);
  }

  /** `_addChildNodesDepthFirst`: appends each child, then recursively its children. */
  method AddChildNodesDepthFirst(tb: Tree, list: seq<Id>, a: Id) returns (r: seq<Id>)
    requires Acyclic(tb.parents)
    ensures r == list + DepthFirstAll(tb, a, FetchChildren(tb, a))
    decreases Height(tb.parents, a)
  {
    var cs := FetchChildren(tb, a);
    r := list;
    for i := 0 to |cs|
      invariant r == list + DepthFirstAll(tb, a, cs[..i])
    {
      var c := cs[i];
      DepthFirstAllSnoc(tb, a, cs, i);
      ChildHeight(tb.parents, a, c);
      r := AddChildNodesDepthFirst(tb, r + [c], c);
      Regroup(list, DepthFirstAll(tb, a, cs[..i]), c, DepthFirstAll(tb, c, FetchChildren(tb, c)));
    }
    assert cs[..|cs|] == cs;
  }

  /** `fetchSubtreeDepthFirst` (and its alias `fetchSubtree`): the node, then its children depth first. */
  method FetchSubtreeDepthFirst(tb: Tree, x: Id) returns (s: seq<Id>)
    requires Acyclic(tb.parents)
    ensures s == DepthFirst(tb, x)
  {
    s := AddChildNodesDepthFirst(tb, [x], x);
  }

  /** Adds each node of `cs` to the list, in order. */
  method AddNodes(list: seq<Id>, cs: seq<Id>) returns (r: seq<Id>)
    ensures r == list + cs
  {
    r := list;
    for i := 0 to |cs|
      invariant r == list + cs[..i]
    {
      assert cs[..i + 1] == cs[..i] + [cs[i]];
      r := r + [cs[i]];
    }
    assert cs[..|cs|] == cs;
  }

  /** `_addChildNodesBreadthFirst`: appends all children of `a`, then recurses into each child. */
  method AddChildNodesBreadthFirst(tb: Tree, list: seq<Id>, a: Id) returns (r: seq<Id>)
    requires Acyclic(tb.parents)
    ensures r == list + BreadthFirst(tb, a)
    decreases Height(tb.parents, a)
  {
    var cs := FetchChildren(tb, a);
    r := AddNodes(list, cs);
    ghost var r1 := r;
    for i := 0 to |cs|
      invariant r == r1 + BreadthFirstAll(tb, a, cs[..i])
    {
      BreadthFirstAllSnoc(tb, a, cs, i);
      ChildHeight(tb.parents, a, cs[i]);
      r := AddChildNodesBreadthFirst(tb, r, cs[i]);
      Assoc(r1, BreadthFirstAll(tb, a, cs[..i]), BreadthFirst(tb, cs[i]));
    }
    assert cs[..|cs|] == cs;
    Assoc(list, cs, BreadthFirstAll(tb, a, cs));
  }

  /**
   * `fetchSubtreeBreadthFirst`: the node, then its children, then what the
   * breadth-first walk appends for each child. It lists the same ids as the
   * depth-first read, each as often.
   */
  method FetchSubtreeBreadthFirst(tb: Tree, x: Id) returns (s: seq<Id>)
    requires Acyclic(tb.parents)
    ensures s == [x] + BreadthFirst(tb, x)
    ensures multiset(s) == multiset(DepthFirst(tb, x))
  {
    s := AddChildNodesBreadthFirst(tb, [x], x);
    BreadthFirstSame(tb, x);
  }

  /** `_countChildNodes`: adds one per child and recurses into it. */
  method CountChildNodes(tb: Tree, count: int, a: Id) returns (r: int)
    requires Acyclic(tb.parents)
    ensures r == count + |DepthFirst(tb, a)| - 1
    decreases Height(tb.parents, a)
  {
    var cs := FetchChildren(tb, a);
    r := count;
    for i := 0 to |cs|
      invariant r == count + |DepthFirstAll(tb, a, cs[..i])|
    {
      DepthFirstAllSnoc(tb, a, cs, i);
      ChildHeight(tb.parents, a, cs[i]);
      r := CountChildNodes(tb, r + 1, cs[i]);
    }
    assert cs[..|cs|] == cs;
  }

  /** `getChildCountRecursive`: the number of descendants of the node. */
  method GetChildCountRecursive(tb: Tree, x: Id) returns (n: int)
    requires Acyclic(tb.parents) && Ahead(tb.parents, tb.next)
    ensures n == |Descendants(tb.parents, x)|
  {
    n := CountChildNodes(tb, 0, x);
    SubtreeIsDescendants(tb, x);
  }

  /** `isDescendantOf(b, a)` holds exactly when `b` is in the subtree of `a` and is not `a`. */
  lemma DescendantInSubtree(tb: Tree, b: Id, a: Id)
    requires Acyclic(tb.parents) && Ahead(tb.parents, tb.next)
    ensures DescendantVerdict(WalkUp(tb.parents, b), Some(a)) == Ok(true) <==> b in DepthFirst(tb, a) && b != a
  {
    var w := WalkUp(tb.parents, b).line;
    DepthFirstMembers(tb, a, b);
    assert w == [w[0]] + w[1..];
    if a == b {
      NotOwnDescendant(tb, a);
    }
  }

  // ---------------------------------------------------------------------
  // Which updates keep the pid links acyclic

  /** `t` and `u` agree on whether `b` has a row and on its parent. */
  ghost predicate Same(t: Parents, u: Parents, b: Id) {
    (b in t <==> b in u) && (b in t ==> t[b] == u[b])
  }

  /** `t` and `u` agree on every id of `s`. */
  ghost predicate AgreeOn(t: Parents, u: Parents, s: seq<Id>) {
    forall i :: 0 <= i < |s| ==> Same(t, u, s[i])
  }

  /** A walk only looks at the rows it visits. */
  lemma {:induction false} ClimbAgree(t: Parents, u: Parents, a: Id, f: nat)
    requires AgreeOn(t, u, Climb(t, a, f).line)
    ensures Climb(u, a, f) == Climb(t, a, f)
    decreases f
  {
    var s := Climb(t, a, f).line;
    assert Same(t, u, s[0]);
    if a in t && t[a].Some? && f > 0 {
      var p := t[a].value;
      var s' := Climb(t, p, f - 1).line;
      assert s == [a] + s';
      forall i | 0 <= i < |s'| ensures Same(t, u, s'[i]) {
        assert s'[i] == s[i + 1];
      }
      ClimbAgree(t, u, p, f - 1);
    }
  }

  /** A walk whose first `i` ids agree ends as the walk from the id at `i`, with the fuel left. */
  lemma {:induction false} ClimbPrefix(t: Parents, u: Parents, a: Id, f: nat, i: nat)
    requires i <= f && i < |Climb(t, a, f).line|
    requires AgreeOn(t, u, Climb(t, a, f).line[..i])
    ensures Climb(u, a, f).end == Climb(u, Climb(t, a, f).line[i], f - i).end
    decreases i
  {
    if i > 0 {
      var s := Climb(t, a, f).line;
      var front, shorter := s[..i], s[..i - 1];
      forall k | 0 <= k < |shorter| ensures Same(t, u, shorter[k]) {
        assert shorter[k] == front[k];
      }
      ClimbPrefix(t, u, a, f, i - 1);
      var b := s[i - 1];
      assert front[i - 1] == b && Same(t, u, b);
      assert Step(t, s, i - 1);
      ClimbFirstStep(u, b, s[i], f - (i - 1), f - i);
    }
  }

  /** A walk that takes a first step, to `p`, ends as the walk from `p` with one step less. */
  lemma ClimbFirstStep(t: Parents, a: Id, p: Id, f: nat, g: nat)
    requires a in t && t[a] == Some(p) && f > 0 && g == f - 1
    ensures Climb(t, a, f).end == Climb(t, p, g).end
  {
  }

  /** The ids of a walk that have a row: all of them, but the last when it ends at a missing row. */
  function Stored(w: Walk): seq<Id>
    requires |w.line| >= 1
  {
    if w.end == AtMissing then w.line[..|w.line| - 1] else w.line
  }

  /** A whole walk has at most as many ids with a row as `K` has, when they all lie in `K`. */
  lemma StoredBound(t: Parents, a: Id, k: set<Id>)
    requires Acyclic(t)
    requires forall b :: b in Stored(WalkUp(t, a)) ==> b in k
    ensures |Stored(WalkUp(t, a))| <= |k|
  {
    LineNoDups(t, a);
    var s := Stored(WalkUp(t, a));
    assert forall i :: 0 <= i < |s| ==> s[i] in s;
    CardBound(s, k);
  }

  /** Every id of a whole walk but a missing last one has a row. */
  lemma StoredRows(t: Parents, a: Id)
    requires Acyclic(t)
    ensures forall b :: b in Stored(WalkUp(t, a)) ==> b in t
  {
    var w := WalkUp(t, a);
    forall b | b in Stored(w) ensures b in t {
      var i :| 0 <= i < |Stored(w)| && Stored(w)[i] == b;
      WalkAt(t, a, i);
    }
  }

  /** Removing a node and its descendants leaves the remaining walks as they were: no cycle appears. */
  lemma DeleteKeepsAcyclic(t: Parents, x: Id)
    requires Acyclic(t)
    ensures Acyclic(t - (Descendants(t, x) + {x}))
  {
    var gone := Descendants(t, x) + {x};
    var u := t - gone;
    forall a | a in u ensures Climb(u, a, |u|).end != OutOfFuel {
      RemainingWalk(t, x, gone, u, a);
    }
  }

  /** The walk from a remaining node after a delete is its old walk. */
  lemma RemainingWalk(t: Parents, x: Id, gone: set<Id>, u: Parents, a: Id)
    requires Acyclic(t) && gone == Descendants(t, x) + {x} && u == t - gone && a in u
    ensures Climb(u, a, |u|).end != OutOfFuel
  {
    RemainingAgree(t, x, gone, u, a);
    ClimbAgree(t, u, a, |t|);
    StoredRows(t, a);
    StoredBound(t, a, u.Keys);
    ClimbSteps(u, a, |t|, |u|);
  }

  /** The rows a remaining node's walk visits are all kept by a delete. */
  lemma RemainingAgree(t: Parents, x: Id, gone: set<Id>, u: Parents, a: Id)
    requires Acyclic(t) && gone == Descendants(t, x) + {x} && u == t - gone && a in u
    ensures AgreeOn(t, u, WalkUp(t, a).line)
    ensures forall b :: b in Stored(WalkUp(t, a)) ==> b in u
  {
    var w := WalkUp(t, a);
    NoLoop(t, a);
    StoredRows(t, a);
    forall i | 0 <= i < |w.line| ensures Same(t, u, w.line[i]) {
      OffSubtree(t, x, a, i);
    }
  }

  /** A walk from outside the subtree of `x` never enters it. */
  lemma OffSubtree(t: Parents, x: Id, a: Id, i: nat)
    requires Acyclic(t) && a in t && a != x && a !in Descendants(t, x)
    requires i < |WalkUp(t, a).line|
    ensures WalkUp(t, a).line[i] != x && WalkUp(t, a).line[i] !in Descendants(t, x)
  {
    var w := WalkUp(t, a).line;
    LineSuffix(t, a, i);
    assert x !in w;
  }

  /**
   * Re-parenting `x` under `target` keeps the links acyclic when the target
   * is null or lies outside the subtree of `x`.
   */
  lemma MoveKeepsAcyclic(t: Parents, x: Id, target: Option<Id>)
    requires Acyclic(t) && x in t
    requires target.Some? ==> x !in WalkUp(t, target.value).line
    ensures Acyclic(t[x := target])
  {
    var u := t[x := target];
    assert |u| == |t| by {
      assert u.Keys == t.Keys;
    }
    forall a | a in u ensures Climb(u, a, |u|).end != OutOfFuel {
      var w := WalkUp(t, a);
      NoLoop(t, a);
      if x !in w.line {
        forall i | 0 <= i < |w.line| ensures Same(t, u, w.line[i]) {
        }
        ClimbAgree(t, u, a, |t|);
      } else {
        var i :| 0 <= i < |w.line| && w.line[i] == x;
        MovedWalk(t, x, target, a, i);
      }
    }
  }

  /** The first `i + 1` ids of a whole walk are distinct rows when the one at `i` is a row. */
  lemma PrefixRows(t: Parents, a: Id, i: nat)
    requires Acyclic(t) && i < |WalkUp(t, a).line| && WalkUp(t, a).line[i] in t
    ensures NoDups(WalkUp(t, a).line[..i + 1])
    ensures forall k :: 0 <= k <= i ==> WalkUp(t, a).line[k] in t
  {
    var w := WalkUp(t, a).line;
    LineNoDups(t, a);
    var pre := w[..i + 1];
    forall k, l | 0 <= k < l < |pre| ensures pre[k] != pre[l] {
      assert pre[k] == w[k] && pre[l] == w[l];
    }
    forall k | 0 <= k <= i ensures w[k] in t {
      WalkAt(t, a, k);
    }
  }

  /**
   * The ids of a walk up to `x` lie in the subtree of `x`, the stored ids of
   * a walk avoiding `x` outside it: together they are distinct rows.
   */
  lemma SplitBound(t: Parents, a: Id, i: nat, x: Id, y: Id)
    requires Acyclic(t) && i < |WalkUp(t, a).line| && WalkUp(t, a).line[i] == x && x in t
    requires x !in WalkUp(t, y).line
    ensures i + 1 + |Stored(WalkUp(t, y))| <= |t|
  {
    var w := WalkUp(t, a).line;
    var v := WalkUp(t, y);
    PrefixRows(t, a, i);
    NoLoop(t, y);
    StoredRows(t, y);
    LineNoDups(t, y);
    var pre := w[..i + 1];
    var rest := Stored(v);
    forall k, m | 0 <= k < |pre| && 0 <= m < |rest| ensures pre[k] != rest[m] {
      LineSuffix(t, a, k);
      LineSuffix(t, y, m);
      assert w[k..][i - k] == x;
      assert x !in v.line[m..];
    }
    var both := pre + rest;
    forall k, l | 0 <= k < l < |both| ensures both[k] != both[l] {
      if l < |pre| {
        assert both[k] == pre[k] && both[l] == pre[l];
      } else if k >= |pre| {
        assert both[k] == v.line[k - |pre|] && both[l] == v.line[l - |pre|];
      } else {
        assert both[k] == pre[k] && both[l] == rest[l - |pre|];
      }
    }
    forall k | 0 <= k < |both| ensures both[k] in t {
      if k >= |pre| {
        assert both[k] == rest[k - |pre|] && both[k] in rest;
      } else {
        assert both[k] == w[k];
      }
    }
    CardBound(both, t.Keys);
  }

  /** The walk from `a` after the move, when the old walk from `a` reaches `x` at position `i`, ends. */
  lemma MovedWalk(t: Parents, x: Id, target: Option<Id>, a: Id, i: nat)
    requires Acyclic(t) && x in t
    requires target.Some? ==> x !in WalkUp(t, target.value).line
    requires i < |WalkUp(t, a).line| && WalkUp(t, a).line[i] == x
    ensures Climb(t[x := target], a, |t|).end != OutOfFuel
  {
    if target.None? {
      PrefixRows(t, a, i);
      CardBound(WalkUp(t, a).line[..i + 1], t.Keys);
    } else {
      SplitBound(t, a, i, x, target.value);
    }
    MovedTail(t, x, target, |t| - i);
    MovedPrefix(t, x, target, a, i);
    EndsAfterPrefix(t, t[x := target], a, i, x);
  }

  /** The ids of the walk from `a` before `x`, which it visits once, keep their rows when `x` moves. */
  lemma MovedPrefix(t: Parents, x: Id, target: Option<Id>, a: Id, i: nat)
    requires Acyclic(t) && i < |WalkUp(t, a).line| && WalkUp(t, a).line[i] == x
    ensures AgreeOn(t, t[x := target], Climb(t, a, |t|).line[..i])
  {
    var w := WalkUp(t, a).line;
    LineNoDups(t, a);
    var front := w[..i];
    forall k | 0 <= k < |front| ensures Same(t, t[x := target], front[k]) {
      assert front[k] == w[k] && w[k] != w[i];
    }
  }

  /** A walk that agrees up to `x` at position `i` ends when the walk from `x` with the fuel left ends. */
  lemma EndsAfterPrefix(t: Parents, u: Parents, a: Id, i: nat, x: Id)
    requires i <= |t| && i < |Climb(t, a, |t|).line| && Climb(t, a, |t|).line[i] == x
    requires AgreeOn(t, u, Climb(t, a, |t|).line[..i])
    requires Climb(u, x, |t| - i).end != OutOfFuel
    ensures Climb(u, a, |t|).end != OutOfFuel
  {
    ClimbPrefix(t, u, a, |t|, i);
  }

  /** After `x` is moved to `target`, the walk from `x` ends once the fuel covers the old walk from the target. */
  lemma MovedTail(t: Parents, x: Id, target: Option<Id>, g: nat)
    requires Acyclic(t) && x in t
    requires target.Some? ==> x !in WalkUp(t, target.value).line && g >= 1 + |Stored(WalkUp(t, target.value))|
    ensures Climb(t[x := target], x, g).end != OutOfFuel
  {
    var u := t[x := target];
    if target.Some? {
      var y := target.value;
      var v := WalkUp(t, y);
      NoLoop(t, y);
      forall k | 0 <= k < |v.line| ensures Same(t, u, v.line[k]) {
      }
      ClimbAgree(t, u, y, |t|);
      ClimbSteps(u, y, |t|, g - 1);
      assert Climb(u, x, g).end == Climb(u, y, g - 1).end;
    }
  }

  /** Without a cycle check, moving a node under its own child creates a cycle. */
  lemma MoveMakesCycle()
    ensures var t := map[1 := None, 2 := Some(1)];
      Acyclic(t) && !Acyclic(t[1 := Some(2)])
  {
    var t: Parents := map[1 := None, 2 := Some(1)];
    assert Climb(t, 2, 2) == Walk([2, 1], AtRoot);
    var u := t[1 := Some(2)];
    assert |u| == 2;
    assert Climb(u, 1, 2) == Walk([1, 2, 1], OutOfFuel);
  }

  /**
   * The row `addChild` and `move` look up, as written: their condition is the
   * column name `id` with no placeholder, so the filter is the bare column,
   * which every row with a positive id satisfies, and the first row in store
   * order comes back whatever id was asked for.
   */
  function FetchRowAsWritten(t: Parents, next: Id, id: Id): (r: Option<Id>)
    ensures Ahead(t, next) ==> (r.None? <==> t == map[])
    ensures r.Some? ==> r.value in t && forall b :: b in t ==> r.value <= b
  {
    var ids := KeysBelow(t, next);
    if ids == [] then None else Some(ids[0])
  }

  /** A root with two children: the example tree of the next lemma. */
  lemma RootWithTwoChildren(t: Parents)
    requires t == map[1 := None, 2 := Some(1), 3 := Some(1)]
    ensures Acyclic(t) && WalkUp(t, 2).line == [2, 1]
  {
    var t1: Parents := map[1 := None];
    assert Climb(t1, 1, 1) == Walk([1], AtRoot);
    AddKeepsAcyclic(t1, 2, Some(1));
    var t2 := t1[2 := Some(1)];
    AddKeepsAcyclic(t2, 3, Some(1));
    assert t2[3 := Some(1)] == t;
    assert Climb(t, 1, |t|) == Walk([1], AtRoot);
    ChildLine(t, 1, 2);
  }

  /**
   * `move(3, 2)` on a root with two children: as written, the first row (the
   * root) is re-parented under node 2, which closes a cycle; the intended
   * move of row 3 keeps the links acyclic.
   */
  lemma MoveAsWrittenMovesFirstRow(t: Parents)
    requires t == map[1 := None, 2 := Some(1), 3 := Some(1)]
    ensures FetchRowAsWritten(t, 4, 3) == Some(1)
    ensures !Acyclic(t[1 := Some(2)])
    ensures Acyclic(t[3 := Some(2)])
  {
    RootWithTwoChildren(t);
    MoveKeepsAcyclic(t, 3, Some(2));
    var u := t[1 := Some(2)];
    assert |u| == 3 by { assert u.Keys == {1, 2, 3}; }
    assert Climb(u, 2, 0) == Walk([2], OutOfFuel);
    assert Climb(u, 1, 1) == Walk([1, 2], OutOfFuel);
    assert Climb(u, 2, 2) == Walk([2, 1, 2], OutOfFuel);
    assert Climb(u, 1, 3) == Walk([1, 2, 1, 2], OutOfFuel);
  }

  /**
   * Adding a row `c` that no row names as parent, under a parent other than
   * itself, keeps the links acyclic.
   */
  lemma AddKeepsAcyclic(t: Parents, c: Id, parent: Option<Id>)
    requires Acyclic(t) && c !in t && parent != Some(c)
    requires forall b :: b in t ==> t[b] != Some(c)
    ensures Acyclic(t[c := parent])
  {
    var u := t[c := parent];
    assert |u| == |t| + 1 by {
      assert u.Keys == t.Keys + {c};
    }
    forall a | a in u ensures Climb(u, a, |u|).end != OutOfFuel {
      if a != c {
        AddedAgree(t, c, parent, a);
        ClimbSteps(u, a, |t|, |u|);
      } else if parent.Some? {
        AddedAgree(t, c, parent, parent.value);
        assert Climb(u, c, |u|).end == Climb(u, parent.value, |t|).end;
      }
    }
  }

  /** Adding a row nobody points to leaves every other walk as it was. */
  lemma AddedAgree(t: Parents, c: Id, parent: Option<Id>, a: Id)
    requires Acyclic(t) && c !in t && a != c
    requires forall b :: b in t ==> t[b] != Some(c)
    ensures Climb(t[c := parent], a, |t|) == WalkUp(t, a)
  {
    var u := t[c := parent];
    var w := WalkUp(t, a);
    NoLoop(t, a);
    forall i | 0 <= i < |w.line| ensures Same(t, u, w.line[i]) {
      if w.line[i] == c {
        WalkAt(t, a, i);
        WalkAt(t, a, i - 1);
      }
    }
    ClimbAgree(t, u, a, |t|);
  }

  // ---------------------------------------------------------------------
  // The backend object

  /** Ids come from the counter and data belongs to rows. */
  ghost predicate TablesOK(parents: Parents, next: Id, data: DataStore.Rows) {
    Ahead(parents, next) && data.Keys <= parents.Keys
  }

  /** The node id `delete` looks for: the database reads a digit string as the number it spells. */
  function DeleteTarget(v: Value): (r: Result<Option<Id>, TreeError>)
    ensures r.Err? <==> v.Null? || v.Bool?
    ensures r.Err? ==> r.error == InvalidNodeIdType
    ensures v.Int? ==> r == Ok(if v.i >= 1 then Some(v.i) else None)
  {
    match v
    case Null => Err(InvalidNodeIdType)
    case Bool(_) => Err(InvalidNodeIdType)
    case Int(i) => Ok(if i >= 1 then Some(i) else None)
    case Str(s) =>
      var n := DecimalValue(s);
      Ok(if n.Some? && n.value >= 1 then Some(n.value) else None)
  }

  /** A string id and the same id as an integer select the same node. */
  lemma StringIdsAsIntegers(n: nat)
    ensures DeleteTarget(Str(DecimalString(n))) == DeleteTarget(Int(n))
  {
    DecimalRoundTrip(n);
  }

  /**
   * An adjacency backend: the `pid` column and auto-increment counter of
   * its tree table, and its data store.
   */
  class Backend {
    var parents: Parents
    var next: Id
    const dataStore: DataStore.TableStore

    /** The backend's tables satisfy `TablesOK` and the data store is well formed. */
    ghost predicate Wellformed()
      reads this, dataStore
    {
      TablesOK(parents, next, dataStore.rows) && dataStore.Valid()
    }

    /** The tree table as a value, for the read operations. */
    function Table(): Tree
      reads this
    {
      Tree(parents, next)
    }

    /** A backend over an empty tree table and the given data store. */
    constructor (store: DataStore.TableStore)
      ensures parents == map[] && next == 1 && dataStore == store
      ensures store.Valid() && store.rows == map[] ==> Wellformed()
    {
      parents, next, dataStore := map[], 1, store;
    }

    /**
     * `setRootNode`: both tables are emptied (TRUNCATE resets the tree
     * table's counter, the data store's delete does not reset its own) and
     * a blank row is saved, which has no parent. Then the node's payload is
     * read, fetching it now if it was not loaded, and stored for the new
     * row; a payload that can no longer be fetched, or a failing save,
     * leaves the new root without data.
     */
    method SetRootNode(node: DataStore.NodeValue, storeFault: bool) returns (r: Result<Id, TreeError>)
      requires dataStore.Valid()
      modifies this, dataStore
      ensures Wellformed() && Acyclic(parents)
      ensures parents == map[1 := None] && next == 2
      ensures var f := DataStore.DataOf(node, map[], dataStore.key, dataStore.columns);
        && (f.Err? ==> r == Err(f.error) && dataStore.rows == map[] && dataStore.next == old(dataStore.next))
        && (f.Ok? && storeFault ==>
              r == Err(DatastoreFailure("Data could not be saved")) && dataStore.rows == map[] && dataStore.next == old(dataStore.next))
        && (f.Ok? && !storeFault ==>
              r == Ok(1)
              && (dataStore.rows, dataStore.next) == DataStore.Upserted(map[], old(dataStore.next), dataStore.key, dataStore.columns, Some(1), f.value))
    {
      parents, next := map[], 1;
      dataStore.DeleteDataForAllNodes();
      var id := next;
      parents := parents[id := None];
      next := next + 1;
      assert Climb(parents, 1, 1) == Walk([1], AtRoot);
      var d :- DataStore.DataOf(node, dataStore.rows, dataStore.key, dataStore.columns);
      DataStore.UpsertKeepsRows(dataStore.key, dataStore.columns, dataStore.rows, dataStore.next, Some(id), d);
      var stored := dataStore.Upsert(Some(id), d, storeFault);
      if stored.Err? {
        return Err(stored.error);
      }
      return Ok(id);
    }

    /**
     * `addChild`: a node without id gets a new row; a node with an id has
     * its row looked up, by its id as intended (`FetchRowAsWritten` is the
     * lookup as written). The row's `pid` is set to `parent` and saved.
     * Then the node's payload is read (fetched now if it was not loaded)
     * and stored under the row's id. When no row has the node's id, the
     * lookup yields null and saving it is a fatal error.
     */
    method AddChild(parent: Option<Id>, node: DataStore.NodeValue, storeFault: bool) returns (r: Result<Id, TreeError>)
      requires Wellformed()
      modifies this, dataStore
      ensures Wellformed()
      ensures node.id.None? ==> next == old(next) + 1 && parents == old(parents)[old(next) := parent]
      ensures node.id.Some? && node.id.value in old(parents) ==> next == old(next) && parents == old(parents)[node.id.value := parent]
      ensures (node.id.None? && Acyclic(old(parents)) && parent != Some(old(next))
               && forall b :: b in old(parents) ==> old(parents)[b] != Some(old(next))) ==> Acyclic(parents)
      ensures node.id.Some? && node.id.value !in old(parents) ==>
        && r == Err(Fatal("save() on a missing row"))
        && parents == old(parents) && next == old(next)
        && dataStore.rows == old(dataStore.rows) && dataStore.next == old(dataStore.next)
      ensures node.id.None? || node.id.value in old(parents) ==>
        var at := if node.id.None? then old(next) else node.id.value;
        var f := DataStore.DataOf(node, old(dataStore.rows), dataStore.key, dataStore.columns);
        && (f.Err? ==> r == Err(f.error) && dataStore.rows == old(dataStore.rows) && dataStore.next == old(dataStore.next))
        && (f.Ok? && storeFault ==>
              r == Err(DatastoreFailure("Data could not be saved"))
              && dataStore.rows == old(dataStore.rows) && dataStore.next == old(dataStore.next))
        && (f.Ok? && !storeFault ==>
              r == Ok(at)
              && (dataStore.rows, dataStore.next)
                 == DataStore.Upserted(old(dataStore.rows), old(dataStore.next), dataStore.key, dataStore.columns, Some(at), f.value))
    {
      var id: Id;
      if node.id.None? {
        if Acyclic(parents) && parent != Some(next) && forall b :: b in parents ==> parents[b] != Some(next) {
          AddKeepsAcyclic(parents, next, parent);
        }
        id := next;
        next := next + 1;
      } else if node.id.value in parents {
        id := node.id.value;
      } else {
        return Err(Fatal("save() on a missing row"));
      }
      parents := parents[id := parent];
      var d :- DataStore.DataOf(node, dataStore.rows, dataStore.key, dataStore.columns);
      DataStore.UpsertKeepsRows(dataStore.key, dataStore.columns, dataStore.rows, dataStore.next, Some(id), d);
      var stored := dataStore.Upsert(Some(id), d, storeFault);
      if stored.Err? {
        return Err(stored.error);
      }
      return Ok(id);
    }

    /** `_deleteNodes`: one `DELETE ... WHERE id = ?` per listed node. */
    method DeleteNodes(ids: seq<Id>)
      modifies this
      ensures parents == old(parents) - Elems(ids) && next == old(next)
    {
      for i := 0 to |ids|
        invariant parents == old(parents) - Elems(ids[..i]) && next == old(next)
      {
        assert Elems(ids[..i + 1]) == Elems(ids[..i]) + {ids[i]} by {
          assert ids[..i + 1] == ids[..i] + [ids[i]];
        }
        parents := parents - {ids[i]};
      }
      assert ids[..|ids|] == ids;
    }

    /** `deleteDataForNodes` of the data store, over a list of node ids. */
    method DeleteDataFor(ids: seq<Id>)
      requires dataStore.Valid()
      modifies dataStore
      ensures dataStore.Valid() && dataStore.rows == old(dataStore.rows) - Elems(ids) && dataStore.next == old(dataStore.next)
    {
      DataStore.NodeKeysDeleted(ids);
      dataStore.DeleteDataForNodes(DataStore.NodeKeys(ids));
    }

    /**
     * `delete`: an id that is neither a string nor an integer throws;
     * otherwise the subtree of the node is read, its rows deleted one by
     * one, then their data. An id that selects no row deletes only rows
     * that name it as parent, and their subtrees.
     */
    method Delete(nodeId: Value) returns (r: Result<(), TreeError>)
      requires Wellformed() && Acyclic(parents)
      modifies this, dataStore
      ensures Wellformed() && Acyclic(parents) && next == old(next) && dataStore.next == old(dataStore.next)
      ensures DeleteTarget(nodeId).Err? ==>
        r == Err(InvalidNodeIdType) && parents == old(parents) && dataStore.rows == old(dataStore.rows)
      ensures DeleteTarget(nodeId) == Ok(None) ==> r == Ok(()) && parents == old(parents) && dataStore.rows == old(dataStore.rows)
      ensures DeleteTarget(nodeId).Ok? && DeleteTarget(nodeId).value.Some? ==>
        var gone := Descendants(old(parents), DeleteTarget(nodeId).value.value) + {DeleteTarget(nodeId).value.value};
        r == Ok(()) && parents == old(parents) - gone && dataStore.rows == old(dataStore.rows) - gone
    {
      var target :- DeleteTarget(nodeId);
      if target.None? {
        return Ok(());
      }
      var x := target.value;
      ghost var t := parents;
      var nodeList := FetchSubtreeDepthFirst(Table(), x);
      SubtreeElems(Table(), x);
      DeleteKeepsAcyclic(t, x);
      DeleteNodes(nodeList);
      DeleteDataFor(nodeList);
      return Ok(());
    }

    /**
     * `move`: the node's row, looked up by its id as intended (see
     * `FetchRowAsWritten`), gets `target` as its `pid`; nothing checks
     * that the target lies outside the node's subtree. When no row has the
     * node's id, saving the missing row is a fatal error.
     */
    method Move(x: Id, target: Option<Id>) returns (r: Result<(), TreeError>)
      requires Wellformed()
      modifies this
      ensures Wellformed() && next == old(next)
      ensures x in old(parents) ==> r == Ok(()) && parents == old(parents)[x := target]
      ensures x !in old(parents) ==> r == Err(Fatal("save() on a missing row")) && parents == old(parents)
      ensures Acyclic(old(parents)) && (target.Some? ==> x !in WalkUp(old(parents), target.value).line) ==> Acyclic(parents)
    {
      if x !in parents {
        return Err(Fatal("save() on a missing row"));
      }
      if Acyclic(parents) && (target.Some? ==> x !in WalkUp(parents, target.value).line) {
        MoveKeepsAcyclic(parents, x, target);
      }
      parents := parents[x := target];
      return Ok(());
    }
  }
}
