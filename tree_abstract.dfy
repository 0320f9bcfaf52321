/**
 * The behaviour every tree shares (`Tree/Abstract.php`): its four
 * properties, the creation and lookup of node objects, and the walk that
 * shows a visitor the tree and then every node from the root down.
 *
 * The walk runs over a parent/child table (the adjacency-list backend, whose
 * `fetchChildren` the nested-set backend inherits) and reads node payloads
 * from the data table. What a visitor does with a node is split in two:
 * what it reads from the node (its parent and, for a node with a parent,
 * its payload) is `VisitFor`, and what it records is `TreeVisitor.Recorded`.
 */
module TreeBase {
  import opened Wrappers
  import opened TreeTable
  import opened DataStore
  import opened TreeVisitor
  import Adjacency
  import DbBackend
  import TreeNode

  // ---------------------------------------------------------------------
  // Properties

  const NODE_CLASS := "Iml_Tree_Node"
  const NODELIST_CLASS := "Iml_Tree_Nodelist"

  /** A property value: a store, or the name of a class. */
  datatype TreeProperty = StoreProp(store: StoreSpec) | ClassProp(name: string)

  /** The names `__get`, `__set` and `__isset` know. */
  predicate IsTreeProperty(name: string) {
    name == "dataStore" || name == "treeStore" || name == "nodeClassName" || name == "nodelistClassName"
  }

  /** The properties of a new tree: the two default class names and whatever stores the backend set up. */
  function Defaults(stores: map<string, StoreSpec>): (props: map<string, TreeProperty>)
    ensures "nodeClassName" in props && "nodelistClassName" in props
    ensures props["nodeClassName"] == ClassProp(NODE_CLASS) && props["nodelistClassName"] == ClassProp(NODELIST_CLASS)
    ensures forall k :: k in stores && k != "nodeClassName" && k != "nodelistClassName" ==> k in props && props[k] == StoreProp(stores[k])
  {
    (map k | k in stores :: StoreProp(stores[k]))
      ["nodeClassName" := ClassProp(NODE_CLASS)]["nodelistClassName" := ClassProp(NODELIST_CLASS)]
  }

  /** `__get`: one of the four properties (null when it was never set); any other name throws. */
  function GetProperty(props: map<string, TreeProperty>, name: string): (r: Result<Option<TreeProperty>, TreeError>)
    ensures r.Err? <==> !IsTreeProperty(name)
    ensures r.Err? ==> r.error == PropertyNotFound(name)
    ensures r.Ok? ==> (r.value.Some? <==> name in props) && (r.value.Some? ==> r.value.value == props[name])
  {
    if !IsTreeProperty(name) then Err(PropertyNotFound(name))
    else if name in props then Ok(Some(props[name]))
    else Ok(None)
  }

  /** How PHP reads a property value as a boolean: a store object is true, a class name unless it is "" or "0". */
  predicate Truthy(p: TreeProperty) {
    p.StoreProp? || (p.name != "" && p.name != "0")
  }

  /** `__isset`: a known property whose value reads as true; an unset one is null, hence false. */
  function IssetProperty(props: map<string, TreeProperty>, name: string): (b: bool)
    ensures b <==> GetProperty(props, name).Ok? && GetProperty(props, name).value.Some? && Truthy(GetProperty(props, name).value.value)
  {
    IsTreeProperty(name) && name in props && Truthy(props[name])
  }

  /**
   * The classes of the running program, each with the set of its proper
   * ancestors (what `ReflectionClass::isSubclassOf` consults).
   */
  type Classes = map<string, set<string>>

  /** The base class a class-name property must derive from. */
  function BaseOf(name: string): string {
    if name == "nodeClassName" then NODE_CLASS else NODELIST_CLASS
  }

  /**
   * `__set` as written. The stores are read-only; a class name must be a
   * string naming a loaded class, and then it is refused unless it equals
   * the base class and is not a subclass of it — so only the base class
   * itself is ever accepted.
   */
  function SetPropertyAsWritten(props: map<string, TreeProperty>, classes: Classes, name: string, v: Value)
    : (r: Result<map<string, TreeProperty>, TreeError>)
  {
    if name == "dataStore" || name == "treeStore" then Err(PropertyReadOnly(name))
    else if name == "nodeClassName" || name == "nodelistClassName" then
      var base := BaseOf(name);
      if !v.Str? then Err(InvalidPropertyValue(name))
      else if base !in classes then Err(ClassNotFound(base))
      else if v.s !in classes then Err(ClassNotFound(v.s))
      else if base != v.s || base in classes[v.s] then Err(InvalidPropertyValue(name))
      else Ok(props[name := ClassProp(v.s)])
    else Err(PropertyNotFound(name))
  }

  /**
   * `__set` as its documentation describes it: a class name is accepted
   * when it names the base class or a class derived from it.
   */
  function SetProperty(props: map<string, TreeProperty>, classes: Classes, name: string, v: Value)
    : (r: Result<map<string, TreeProperty>, TreeError>)
    ensures r.Ok? <==> (name == "nodeClassName" || name == "nodelistClassName") && v.Str? && BaseOf(name) in classes
                       && v.s in classes && (v.s == BaseOf(name) || BaseOf(name) in classes[v.s])
    ensures r.Ok? ==> r.value == props[name := ClassProp(v.s)]
    ensures !IsTreeProperty(name) ==> r == Err(PropertyNotFound(name))
    ensures name == "dataStore" || name == "treeStore" ==> r == Err(PropertyReadOnly(name))
  {
    if name == "dataStore" || name == "treeStore" then Err(PropertyReadOnly(name))
    else if name == "nodeClassName" || name == "nodelistClassName" then
      var base := BaseOf(name);
      if !v.Str? then Err(InvalidPropertyValue(name))
      else if base !in classes then Err(ClassNotFound(base))
      else if v.s !in classes then Err(ClassNotFound(v.s))
      else if base != v.s && base !in classes[v.s] then Err(InvalidPropertyValue(name))
      else Ok(props[name := ClassProp(v.s)])
    else Err(PropertyNotFound(name))
  }

  /**
   * The setter as written accepts nothing the intended one refuses, and
   * refuses every proper subclass of the base class that the intended one
   * accepts; where the intended one refuses, both give the same error.
   */
  lemma SetAsWrittenRefusesSubclasses(props: map<string, TreeProperty>, classes: Classes, name: string, v: Value)
    ensures SetPropertyAsWritten(props, classes, name, v).Ok? ==>
      v == Str(BaseOf(name)) && SetProperty(props, classes, name, v) == SetPropertyAsWritten(props, classes, name, v)
    ensures SetProperty(props, classes, name, v).Err? ==> SetPropertyAsWritten(props, classes, name, v) == SetProperty(props, classes, name, v)
    ensures SetProperty(props, classes, name, v).Ok? && v.s != BaseOf(name) ==>
      SetPropertyAsWritten(props, classes, name, v) == Err(InvalidPropertyValue(name))
  {
  }

  /** A subclass of the node class exists that the setter as written refuses. */
  lemma SubclassRefusedAsWritten()
    ensures var classes: Classes := map[NODE_CLASS := {}, "My_Node" := {NODE_CLASS}];
      && SetPropertyAsWritten(map[], classes, "nodeClassName", Str("My_Node")) == Err(InvalidPropertyValue("nodeClassName"))
      && SetProperty(map[], classes, "nodeClassName", Str("My_Node")) == Ok(map["nodeClassName" := ClassProp("My_Node")])
  {
  }

  /** After a successful `__set`, `__get` of that name gives the new class name and every other property is unchanged. */
  lemma GetAfterSet(props: map<string, TreeProperty>, classes: Classes, name: string, v: Value, other: string)
    requires SetProperty(props, classes, name, v).Ok?
    ensures GetProperty(SetProperty(props, classes, name, v).value, name) == Ok(Some(ClassProp(v.s)))
    ensures other != name ==> GetProperty(SetProperty(props, classes, name, v).value, other) == GetProperty(props, other)
  {
  }

  // ---------------------------------------------------------------------
  // The walk

  /**
   * What a visitor reads from the node `a` when it visits it: the node's
   * parent and, when it has one, the payload. An unknown node or a payload
   * without a row throws; the visitor has then already taken the node as
   * its root if it had none, which is what `NodeVisit(a, None)` records.
   */
  function VisitFor(tb: Adjacency.Tree, rows: Rows, key: string, columns: set<string>, a: Id): (r: Result<Visit, TreeError>)
    ensures r.Ok? <==> a in tb.parents && (tb.parents[a].Some? ==> FetchRow(rows, key, columns, Some(a)).Ok?)
    ensures r.Ok? ==> r.value.NodeVisit? && r.value.id == a
    ensures r.Ok? ==> (r.value.edge.None? <==> a in tb.parents && tb.parents[a].None?)
    ensures r.Ok? && r.value.edge.Some? ==>
              Some(r.value.edge.value.0) == tb.parents[a] && r.value.edge.value.1 == FetchRow(rows, key, columns, Some(a)).value
  {
    var parent :- DbBackend.FetchParent(tb.parents, a);
    if parent.None? then Ok(NodeVisit(a, None))
    else
      var d :- FetchRow(rows, key, columns, Some(a));
      Ok(NodeVisit(a, Some((parent.value, d))))
  }

  /** The visits of a walk, and the exception that ended it early, if any. */
  datatype Walked = Walked(visits: seq<Visit>, failure: Option<TreeError>)

  /** The visits made when the nodes `ids` are visited in turn: up to and including the first that fails. */
  function VisitsOf(tb: Adjacency.Tree, rows: Rows, key: string, columns: set<string>, ids: seq<Id>): Walked {
    if ids == [] then Walked([], None)
    else
      match VisitFor(tb, rows, key, columns, ids[0])
      case Err(e) => Walked([NodeVisit(ids[0], None)], Some(e))
      case Ok(v) =>
        var w := VisitsOf(tb, rows, key, columns, ids[1..]);
        Walked([v] + w.visits, w.failure)
  }

  /** Visiting `s1` then `s2`: the second part only runs when the first did not fail. */
  lemma {:induction false} VisitsAppend(tb: Adjacency.Tree, rows: Rows, key: string, columns: set<string>, s1: seq<Id>, s2: seq<Id>)
    ensures var w1, w2 := VisitsOf(tb, rows, key, columns, s1), VisitsOf(tb, rows, key, columns, s2);
      VisitsOf(tb, rows, key, columns, s1 + s2)
      == if w1.failure.Some? then w1 else Walked(w1.visits + w2.visits, w2.failure)
  {
    if s1 == [] {
      assert s1 + s2 == s2;
    } else {
      var s := s1 + s2;
      assert s[0] == s1[0] && s[1..] == s1[1..] + s2;
      if VisitFor(tb, rows, key, columns, s1[0]).Ok? {
        VisitsAppend(tb, rows, key, columns, s1[1..], s2);
        var v := VisitFor(tb, rows, key, columns, s1[0]).value;
        var w1, w2 := VisitsOf(tb, rows, key, columns, s1[1..]), VisitsOf(tb, rows, key, columns, s2);
        if w1.failure.None? {
          Associate([v], w1.visits, w2.visits);
        }
      }
    }
  }

  /** A walk that does not fail visits every node, in order, each as `VisitFor` reads it. */
  lemma {:induction false} VisitsFollowIds(tb: Adjacency.Tree, rows: Rows, key: string, columns: set<string>, ids: seq<Id>)
    ensures var w := VisitsOf(tb, rows, key, columns, ids);
      w.failure.None? <==> forall i :: 0 <= i < |ids| ==> VisitFor(tb, rows, key, columns, ids[i]).Ok?
    ensures var w := VisitsOf(tb, rows, key, columns, ids);
      w.failure.None? ==> |w.visits| == |ids| && forall i :: 0 <= i < |ids| ==> w.visits[i] == VisitFor(tb, rows, key, columns, ids[i]).value
  {
    if ids != [] {
      VisitsFollowIds(tb, rows, key, columns, ids[1..]);
      var w := VisitsOf(tb, rows, key, columns, ids);
      var rest := ids[1..];
      if VisitFor(tb, rows, key, columns, ids[0]).Ok? {
        if w.failure.Some? {
          var j :| 0 <= j < |rest| && !VisitFor(tb, rows, key, columns, rest[j]).Ok?;
          assert ids[j + 1] == rest[j];
        } else {
          forall i | 1 <= i < |ids|
            ensures VisitFor(tb, rows, key, columns, ids[i]).Ok?
            ensures w.visits[i] == VisitFor(tb, rows, key, columns, ids[i]).value
          {
            assert ids[i] == rest[i - 1];
          }
        }
      }
    }
  }

  /** The visits of `a` and of the subtrees of its first `i` children. */
  ghost function Prefix(tb: Adjacency.Tree, rows: Rows, key: string, columns: set<string>, a: Id, cs: seq<Id>, i: nat): Walked
    requires Adjacency.Acyclic(tb.parents) && Adjacency.ChildrenOf(tb, a, cs) && i <= |cs|
  {
    VisitsOf(tb, rows, key, columns, [a] + Adjacency.DepthFirstAll(tb, a, cs[..i]))
  }

  /** Before any child: only `a` itself. */
  lemma PrefixStart(tb: Adjacency.Tree, rows: Rows, key: string, columns: set<string>, a: Id, cs: seq<Id>)
    requires Adjacency.Acyclic(tb.parents) && Adjacency.ChildrenOf(tb, a, cs)
    ensures Prefix(tb, rows, key, columns, a, cs, 0) == VisitsOf(tb, rows, key, columns, [a])
  {
    assert cs[..0] == [];
  }

  /** One more child: if the walk so far did not fail, that child's subtree is walked next. */
  lemma PrefixStep(tb: Adjacency.Tree, rows: Rows, key: string, columns: set<string>, a: Id, cs: seq<Id>, i: nat)
    requires Adjacency.Acyclic(tb.parents) && Adjacency.ChildrenOf(tb, a, cs) && i < |cs|
    ensures var p, sub := Prefix(tb, rows, key, columns, a, cs, i), VisitsOf(tb, rows, key, columns, Adjacency.DepthFirst(tb, cs[i]));
      Prefix(tb, rows, key, columns, a, cs, i + 1) == if p.failure.Some? then p else Walked(p.visits + sub.visits, sub.failure)
  {
    Adjacency.DepthFirstAllSnoc(tb, a, cs, i);
    var before, sub := Adjacency.DepthFirstAll(tb, a, cs[..i]), Adjacency.DepthFirst(tb, cs[i]);
    VisitsAppend(tb, rows, key, columns, [a] + before, sub);
    Associate([a], before, sub);
  }

  lemma Associate<T>(x: seq<T>, y: seq<T>, z: seq<T>)
    ensures (x + y) + z == x + (y + z)
  {
  }

  /** After all the children, or once the walk has failed, the prefix is the whole walk of `a`. */
  lemma {:induction false} PrefixWhole(tb: Adjacency.Tree, rows: Rows, key: string, columns: set<string>, a: Id, cs: seq<Id>, k: nat)
    requires Adjacency.Acyclic(tb.parents) && cs == Adjacency.FetchChildren(tb, a) && k <= |cs|
    requires k == |cs| || Prefix(tb, rows, key, columns, a, cs, k).failure.Some?
    ensures VisitsOf(tb, rows, key, columns, Adjacency.DepthFirst(tb, a)) == Prefix(tb, rows, key, columns, a, cs, k)
    decreases |cs| - k
  {
    if k < |cs| {
      PrefixStep(tb, rows, key, columns, a, cs, k);
      PrefixWhole(tb, rows, key, columns, a, cs, k + 1);
    } else {
      assert cs[..k] == cs;
    }
  }

  /**
   * A node's `accept`: the visitor visits the node, then each child in
   * `fetchChildren` order accepts it in turn. An exception stops the walk.
   */
  method AcceptNode(tb: Adjacency.Tree, rows: Rows, key: string, columns: set<string>, a: Id, c: Collector)
    returns (r: Result<(), TreeError>)
    requires Adjacency.Acyclic(tb.parents)
    modifies c
    ensures var w := VisitsOf(tb, rows, key, columns, Adjacency.DepthFirst(tb, a));
      && State(c.root, c.edges) == Fold(old(State(c.root, c.edges)), w.visits)
      && (r.Err? <==> w.failure.Some?)
      && (r.Err? ==> r.error == w.failure.value)
    decreases Adjacency.Height(tb.parents, a)
  {
    ghost var st0 := State(c.root, c.edges);
    var cs := Adjacency.FetchChildren(tb, a);
    PrefixStart(tb, rows, key, columns, a, cs);
    var v := VisitFor(tb, rows, key, columns, a);
    if v.Err? {
      var _ := c.Visit(NodeVisit(a, None));
      PrefixWhole(tb, rows, key, columns, a, cs, 0);
      assert [NodeVisit(a, None)][..0] == [];
      return Err(v.error);
    }
    var _ := c.Visit(v.value);
    assert [v.value][..0] == [];
    for i := 0 to |cs|
      invariant Prefix(tb, rows, key, columns, a, cs, i).failure.None?
      invariant State(c.root, c.edges) == Fold(st0, Prefix(tb, rows, key, columns, a, cs, i).visits)
    {
      PrefixStep(tb, rows, key, columns, a, cs, i);
      Adjacency.ChildHeight(tb.parents, a, cs[i]);
      var sub := AcceptNode(tb, rows, key, columns, cs[i], c);
      FoldAppend(st0, Prefix(tb, rows, key, columns, a, cs, i).visits,
                 VisitsOf(tb, rows, key, columns, Adjacency.DepthFirst(tb, cs[i])).visits);
      if sub.Err? {
        PrefixWhole(tb, rows, key, columns, a, cs, i + 1);
        return sub;
      }
    }
    PrefixWhole(tb, rows, key, columns, a, cs, |cs|);
    return Ok(());
  }

  /**
   * The tree's `accept`: the visitor visits the tree itself, then the root
   * node accepts it. A tree without a root row has null for a root, and
   * calling `accept` on a non-object is a fatal error.
   */
  method Accept(tb: Adjacency.Tree, rows: Rows, key: string, columns: set<string>, c: Collector)
    returns (r: Result<(), TreeError>)
    requires Adjacency.Acyclic(tb.parents)
    modifies c
    ensures var root := DbBackend.GetRootNode(tb.parents, tb.next);
      && (root.None? ==> r == Err(Fatal("Call to a member function accept() on a non-object"))
                         && State(c.root, c.edges) == old(State(c.root, c.edges)))
      && (root.Some? ==>
            var w := VisitsOf(tb, rows, key, columns, Adjacency.DepthFirst(tb, root.value));
            && State(c.root, c.edges) == Fold(old(State(c.root, c.edges)), [TreeVisit] + w.visits)
            && (r.Err? <==> w.failure.Some?)
            && (r.Err? ==> r.error == w.failure.value))
  {
    ghost var st0 := State(c.root, c.edges);
    var _ := c.Visit(TreeVisit);
    var root := DbBackend.GetRootNode(tb.parents, tb.next);
    if root.None? {
      return Err(Fatal("Call to a member function accept() on a non-object"));
    }
    r := AcceptNode(tb, rows, key, columns, root.value, c);
    ghost var w := VisitsOf(tb, rows, key, columns, Adjacency.DepthFirst(tb, root.value));
    assert Fold(st0, [TreeVisit]) == st0 by { assert [TreeVisit][..0] == []; }
    FoldAppend(st0, [TreeVisit], w.visits);
  }

  /**
   * A visitor that starts empty and sees a whole walk takes the tree's root
   * as its root, and records one child entry for every other node of the
   * tree under that node's parent.
   */
  lemma WalkRecordsRoot(tb: Adjacency.Tree, rows: Rows, key: string, columns: set<string>, root: Id)
    requires Adjacency.Acyclic(tb.parents) && root in tb.parents && tb.parents[root].None?
    requires VisitsOf(tb, rows, key, columns, Adjacency.DepthFirst(tb, root)).failure.None?
    ensures var w := VisitsOf(tb, rows, key, columns, Adjacency.DepthFirst(tb, root));
      && Fold(State(None, map[]), [TreeVisit] + w.visits).root == Some(root)
      && |w.visits| == |Adjacency.DepthFirst(tb, root)|
      && (forall i :: 0 <= i < |w.visits| ==> w.visits[i].NodeVisit? && w.visits[i].id == Adjacency.DepthFirst(tb, root)[i])
      && w.visits[0].edge.None?
  {
    var ids := Adjacency.DepthFirst(tb, root);
    var w := VisitsOf(tb, rows, key, columns, ids);
    VisitsFollowIds(tb, rows, key, columns, ids);
    CollectedEdges([TreeVisit] + w.visits);
    assert ([TreeVisit] + w.visits)[1..] == w.visits;
  }

  // ---------------------------------------------------------------------
  // The tree object

  /** A tree: its properties and the classes its setters may name. */
  class TreeObject {
    var properties: map<string, TreeProperty>
    const classes: Classes

    /** A tree whose backend set up `stores`; the class names start at their defaults. */
    constructor (stores: map<string, StoreSpec>, classes: Classes)
      ensures properties == Defaults(stores) && this.classes == classes
    {
      properties := Defaults(stores);
      this.classes := classes;
    }

    /** `__get`. */
    function Get(name: string): (r: Result<Option<TreeProperty>, TreeError>)
      reads this
      ensures r == GetProperty(properties, name)
    {
      GetProperty(properties, name)
    }

    /** `__isset`. */
    function Isset(name: string): (b: bool)
      reads this
      ensures b <==> IssetProperty(properties, name)
    {
      IssetProperty(properties, name)
    }

    /** `__set`, with the class-name check as intended; a refused value changes nothing. */
    method Set(name: string, v: Value) returns (r: Result<(), TreeError>)
      modifies this
      ensures var s := SetProperty(old(properties), classes, name, v);
        && (r.Ok? <==> s.Ok?)
        && (s.Ok? ==> properties == s.value)
        && (s.Err? ==> r == Err(s.error) && properties == old(properties))
    {
      var s := SetProperty(properties, classes, name, v);
      if s.Err? {
        return Err(s.error);
      }
      properties := s.value;
      return Ok(());
    }
  }

  /** `checkNodeId` of the base class accepts every id; the database backends override it with `DbBackend.CheckNodeId`. */
  function CheckNodeId(id: Option<Id>): (r: Result<(), TreeError>)
    ensures r.Ok?
  {
    Ok(())
  }

  /**
   * `createNode` on a database-backed tree: the backend's id check (a new
   * node has no id yet), then a node object holding the given payload.
   */
  method CreateNode(store: TableStore, id: Option<Id>, d: Option<Data>) returns (r: Result<TreeNode.Node, TreeError>)
    ensures r.Err? <==> DbBackend.CheckNodeId(id).Err?
    ensures r.Err? ==> r.error == NodeIdMustBeNull
    ensures r.Ok? ==> fresh(r.value) && r.value.id == id && r.value.store == store
    ensures r.Ok? && d.Some? ==> r.value.data == d.value && r.value.dataFetched && !r.value.dataStored
  {
    var _ :- DbBackend.CheckNodeId(id);
    var node := new TreeNode.Node(store, id, d);
    return Ok(node);
  }

  /** `fetchNodeById`: a node object for a stored id, its payload left to be fetched; an unknown id throws. */
  method FetchNodeById(t: DbBackend.Parents, store: TableStore, id: Id) returns (r: Result<TreeNode.Node, TreeError>)
    ensures r.Err? <==> !DbBackend.NodeExists(t, id)
    ensures r.Err? ==> r.error == NodeNotFound(id)
    ensures r.Ok? ==> fresh(r.value) && r.value.id == Some(id) && r.value.store == store
    ensures r.Ok? ==> !r.value.dataFetched && r.value.dataStored
  {
    if !DbBackend.NodeExists(t, id) {
      return Err(NodeNotFound(id));
    }
    var node := new TreeNode.Node(store, Some(id), None);
    return Ok(node);
  }
}
