/**
 * What the two visitors (`Visitor/Plaintext.php`, `Visitor/Dojodata.php`)
 * collect while a tree is walked: the id of the first node visited, and for
 * every parent the list of its children's ids and payloads, in visit order.
 * Both visitors record exactly the same state; they differ only in how they
 * render it afterwards.
 */
module TreeVisitor {
  import opened Wrappers
  import opened TreeTable

  /** A recorded child: its id and its payload. */
  datatype Child = Child(id: Id, data: Data)

  /** The recorded children by parent id. */
  type Edges = map<Id, seq<Child>>

  /**
   * One call of `visit`: the tree object itself, or a node with, when it has
   * a parent, the parent's id and the node's own payload (the payload is
   * read only for a node with a parent).
   */
  datatype Visit = TreeVisit | NodeVisit(id: Id, edge: Option<(Id, Data)>)

  /** The state of a visitor: the root id seen first and the edges. */
  datatype State = State(root: Option<Id>, edges: Edges)

  /** `visit`: the tree is ignored; a node becomes the root if none is known and is appended to its parent's children. */
  function Recorded(st: State, v: Visit): (r: State)
    ensures v.TreeVisit? ==> r == st
    ensures v.NodeVisit? && st.root.Some? ==> r.root == st.root
  {
    match v
    case TreeVisit => st
    case NodeVisit(id, edge) =>
      var root := if st.root.None? then Some(id) else st.root;
      if edge.None? then State(root, st.edges)
      else
        var (p, d) := edge.value;
        var before := if p in st.edges then st.edges[p] else [];
        State(root, st.edges[p := before + [Child(id, d)]])
  }

  /** The state after the visits `vs`, one after another, from `st`. */
  function Fold(st: State, vs: seq<Visit>): State {
    if vs == [] then st else Recorded(Fold(st, vs[..|vs| - 1]), vs[|vs| - 1])
  }

  /** Visiting `a` and then `b` is visiting `a + b`. */
  lemma {:induction false} FoldAppend(st: State, a: seq<Visit>, b: seq<Visit>)
    ensures Fold(Fold(st, a), b) == Fold(st, a + b)
    decreases |b|
  {
    if b == [] {
      assert a + b == a;
    } else {
      FoldAppend(st, a, b[..|b| - 1]);
      assert (a + b)[..|a + b| - 1] == a + b[..|b| - 1];
    }
  }

  /** The children recorded under `p` by the visits `vs`: an independent, front-to-back reading. */
  function ChildrenIn(vs: seq<Visit>, p: Id): seq<Child> {
    if vs == [] then []
    else
      var here := if vs[0].NodeVisit? && vs[0].edge.Some? && vs[0].edge.value.0 == p
                  then [Child(vs[0].id, vs[0].edge.value.1)] else [];
      here + ChildrenIn(vs[1..], p)
  }

  /** The first node among the visits `vs`. */
  function FirstNode(vs: seq<Visit>): Option<Id> {
    if vs == [] then None
    else if vs[0].NodeVisit? then Some(vs[0].id)
    else FirstNode(vs[1..])
  }

  lemma {:induction false} ChildrenInSnoc(vs: seq<Visit>, v: Visit, p: Id)
    ensures ChildrenIn(vs + [v], p) == ChildrenIn(vs, p) + ChildrenIn([v], p)
  {
    if vs != [] {
      ChildrenInSnoc(vs[1..], v, p);
      assert (vs + [v])[1..] == vs[1..] + [v];
    }
  }

  lemma {:induction false} FirstNodeSnoc(vs: seq<Visit>, v: Visit)
    ensures FirstNode(vs + [v]) == if FirstNode(vs).Some? then FirstNode(vs) else FirstNode([v])
  {
    if vs != [] {
      FirstNodeSnoc(vs[1..], v);
      assert (vs + [v])[1..] == vs[1..] + [v];
    }
  }

  /**
   * A visitor that starts empty records as root the first node visited, and
   * under each parent exactly the children visited with that parent, in
   * visit order; a parent with no visited child has no entry.
   */
  lemma {:induction false} CollectedEdges(vs: seq<Visit>)
    ensures Fold(State(None, map[]), vs).root == FirstNode(vs)
    ensures forall p :: p in Fold(State(None, map[]), vs).edges <==> ChildrenIn(vs, p) != []
    ensures forall p :: p in Fold(State(None, map[]), vs).edges ==> Fold(State(None, map[]), vs).edges[p] == ChildrenIn(vs, p)
  {
    if vs != [] {
      var front, v := vs[..|vs| - 1], vs[|vs| - 1];
      assert vs == front + [v];
      CollectedEdges(front);
      FirstNodeSnoc(front, v);
      var before, after := Fold(State(None, map[]), front), Fold(State(None, map[]), vs);
      assert after == Recorded(before, v);
      forall p
        ensures p in after.edges <==> ChildrenIn(vs, p) != []
        ensures p in after.edges ==> after.edges[p] == ChildrenIn(vs, p)
      {
        ChildrenInSnoc(front, v, p);
        assert [v][1..] == [];
        var mine := v.NodeVisit? && v.edge.Some? && v.edge.value.0 == p;
        assert ChildrenIn([v], p) == if mine then [Child(v.id, v.edge.value.1)] else [];
      }
    }
  }

  /** The recorded children of `id`; a null id or one without entry has none. */
  function Kids(edges: Edges, id: Option<Id>): seq<Child> {
    if id.Some? && id.value in edges then edges[id.value] else []
  }

  /**
   * The recorded descendants of `id` in pre-order, each child followed by its
   * own descendants, down to `fuel` levels (recorded edges do not by
   * themselves rule out a cycle).
   */
  function Preorder(edges: Edges, id: Option<Id>, fuel: nat): seq<Child>
    decreases fuel, 1, 0
  {
    if fuel == 0 then [] else PreorderFrom(edges, Kids(edges, id), 0, fuel)
  }

  function PreorderFrom(edges: Edges, cs: seq<Child>, k: nat, fuel: nat): seq<Child>
    requires fuel >= 1
    decreases fuel, 0, |cs| - k
  {
    if k >= |cs| then [] else [cs[k]] + Preorder(edges, Some(cs[k].id), fuel - 1) + PreorderFrom(edges, cs, k + 1, fuel)
  }

  /** The edge-collecting state of a visitor object. */
  class Collector {
    var root: Option<Id>
    var edges: Edges

    /** A visitor that has seen nothing. */
    constructor ()
      ensures root == None && edges == map[]
    {
      root, edges := None, map[];
    }

    /** `visit`; it always answers true. */
    method Visit(v: Visit) returns (ok: bool)
      modifies this
      ensures State(root, edges) == Recorded(old(State(root, edges)), v) && ok
    {
      match v {
        case TreeVisit =>
        case NodeVisit(id, edge) =>
          if root.None? {
            root := Some(id);
          }
          if edge.Some? {
            var (p, d) := edge.value;
            var before := if p in edges then edges[p] else [];
            edges := edges[p := before + [Child(id, d)]];
          }
      }
      ok := true;
    }
  }
}
