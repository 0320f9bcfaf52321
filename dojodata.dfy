/**
 * The Dojo data visitor (`Visitor/Dojodata.php`): after a walk it turns the
 * recorded edges into nested arrays for a Dojo data store. Every child
 * becomes an array holding a serial number, its database id, its payload
 * fields and, when it has recorded children of its own, the list of their
 * arrays.
 *
 * The serial numbers come from a counter shared by every instance of the
 * class and never reset; here it is passed in and handed back.
 */
module Dojodata {
  import opened Wrappers
  import opened TreeTable
  import opened TreeVisitor

  /** A value in a produced array: a scalar, or the list of the children's arrays. */
  datatype Item = Val(v: Value) | List(list: seq<map<string, Item>>)

  /** A produced array, by key. */
  type Fields = map<string, Item>

  /**
   * The shape of the output: one entry per recorded child, with its serial
   * number and, when it has an entry in the edges, its children's entries.
   */
  datatype Entry = Leaf(serial: int, child: Child) | Branch(serial: int, child: Child, kids: seq<Entry>)

  /** The entry of a child, given what the recursive call produced for its own children. */
  function MakeEntry(serial: int, child: Child, kids: Option<seq<Entry>>): Entry {
    if kids.None? then Leaf(serial, child) else Branch(serial, child, kids.value)
  }

  /**
   * `doChildren(id)` on entries: nothing (PHP's null) for an id without
   * recorded children, otherwise one entry per child, numbered from
   * `serial + 1` on in pre-order. The second component is the counter
   * afterwards.
   */
  function Entries(edges: Edges, id: Id, serial: int, fuel: nat): (Option<seq<Entry>>, int)
    decreases fuel, 1, 0
  {
    if fuel == 0 || id !in edges then (None, serial)
    else
      var (es, next) := EntriesFrom(edges, edges[id], 0, serial, fuel);
      (Some(es), next)
  }

  /** The entries for the children `cs[k..]` of one parent. */
  function EntriesFrom(edges: Edges, cs: seq<Child>, k: nat, serial: int, fuel: nat): (seq<Entry>, int)
    requires fuel >= 1
    decreases fuel, 0, |cs| - k
  {
    if k >= |cs| then ([], serial)
    else
      var (kids, after) := Entries(edges, cs[k].id, serial + 1, fuel - 1);
      var (rest, next) := EntriesFrom(edges, cs, k + 1, after, fuel);
      ([MakeEntry(serial + 1, cs[k], kids)] + rest, next)
  }

  /**
   * The array of an entry: `id` is its serial number and `dbId` its
   * database id, then every payload field is written over them, then
   * `children` is set to the children's arrays, or removed when the child
   * has no entry in the edges.
   */
  function Structure(e: Entry): Fields
    decreases e
  {
    var base := map["id" := Val(Int(e.serial)), "dbId" := Val(Int(e.child.id))];
    var withData := base + map k | k in e.child.data :: Val(e.child.data[k]);
    match e
    case Leaf(_, _) => withData - {"children"}
    case Branch(_, _, ks) => withData["children" := List(seq(|ks|, i requires 0 <= i < |ks| => Structure(ks[i])))]
  }

  /**
   * What an array holds: `id` and `dbId` unless a payload field of that name
   * replaced them, every payload field but `children`, and `children`
   * exactly when the child had an entry in the edges, holding its
   * children's arrays in order.
   */
  lemma StructureFields(e: Entry)
    ensures var st := Structure(e);
      && st.Keys == (if e.Leaf? then ({"id", "dbId"} + e.child.data.Keys) - {"children"}
                     else {"id", "dbId", "children"} + e.child.data.Keys)
      && ("id" !in e.child.data ==> st["id"] == Val(Int(e.serial)))
      && ("dbId" !in e.child.data ==> st["dbId"] == Val(Int(e.child.id)))
      && (forall k :: k in e.child.data && k != "children" ==> st[k] == Val(e.child.data[k]))
      && (e.Branch? ==> (&& st["children"].List? && |st["children"].list| == |e.kids|
                         && forall i :: 0 <= i < |e.kids| ==> st["children"].list[i] == Structure(e.kids[i])))
  {
  }

  /** The arrays of a list of entries. */
  function Structures(es: seq<Entry>): (r: seq<Fields>)
    ensures |r| == |es| && forall i :: 0 <= i < |es| ==> r[i] == Structure(es[i])
  {
    seq(|es|, i requires 0 <= i < |es| => Structure(es[i]))
  }

  /** An entry followed by its descendants' entries. */
  function FlattenEntry(e: Entry): seq<Entry>
    decreases e
  {
    [e] + (if e.Branch? then Flatten(e.kids) else [])
  }

  lemma StructuresSnoc(es: seq<Entry>, e: Entry)
    ensures Structures(es + [e]) == Structures(es) + [Structure(e)]
  {
  }

  /** The entries of a list, each followed by its descendants' entries. */
  function Flatten(es: seq<Entry>): seq<Entry>
    decreases es
  {
    if es == [] then [] else FlattenEntry(es[0]) + Flatten(es[1..])
  }

  /** The serial numbers of entries in pre-order are `from`, `from + 1`, and so on. */
  ghost predicate Numbered(es: seq<Entry>, from: int) {
    forall i :: 0 <= i < |es| ==> es[i].serial == from + i
  }

  /** The entries `es` stand for the children `pre`, one for one, numbered from `from`. */
  ghost predicate Stand(es: seq<Entry>, pre: seq<Child>, from: int) {
    && |es| == |pre|
    && (forall i :: 0 <= i < |es| ==> es[i].child == pre[i])
    && Numbered(es, from)
  }

  lemma ThreeParts(e: Entry, below: seq<Entry>, others: seq<Entry>, c: Child, pb: seq<Child>, pr: seq<Child>, from: int)
    requires e.child == c && e.serial == from
    requires Stand(below, pb, from + 1) && Stand(others, pr, from + 1 + |below|)
    ensures Stand([e] + below + others, [c] + pb + pr, from)
  {
    var flat, pre := [e] + below + others, [c] + pb + pr;
    forall i | 0 <= i < |flat|
      ensures flat[i].child == pre[i] && flat[i].serial == from + i
    {
      if i == 0 {
      } else if i < 1 + |below| {
        assert flat[i] == below[i - 1] && pre[i] == pb[i - 1];
      } else {
        assert flat[i] == others[i - 1 - |below|] && pre[i] == pr[i - 1 - |below|];
      }
    }
  }

  /**
   * Numbering: the entries for `id`, read in pre-order, are the recorded
   * descendants of `id`, each paired with the next serial number; the
   * counter moves by the number of descendants.
   */
  lemma {:induction false} EntriesArePreorder(edges: Edges, id: Id, serial: int, fuel: nat)
    ensures var (r, next) := Entries(edges, id, serial, fuel);
      var flat := if r.Some? then Flatten(r.value) else [];
      && (r.None? <==> fuel == 0 || id !in edges)
      && Stand(flat, Preorder(edges, Some(id), fuel), serial + 1)
      && next == serial + |flat|
    decreases fuel, 1, 0
  {
    if fuel > 0 && id in edges {
      EntriesFromArePreorder(edges, edges[id], 0, serial, fuel);
    }
  }

  lemma {:induction false} EntriesFromArePreorder(edges: Edges, cs: seq<Child>, k: nat, serial: int, fuel: nat)
    requires fuel >= 1
    ensures var (es, next) := EntriesFrom(edges, cs, k, serial, fuel);
      && Stand(Flatten(es), PreorderFrom(edges, cs, k, fuel), serial + 1)
      && next == serial + |Flatten(es)|
    decreases fuel, 0, |cs| - k
  {
    if k < |cs| {
      var r := Entries(edges, cs[k].id, serial + 1, fuel - 1);
      var tail := EntriesFrom(edges, cs, k + 1, r.1, fuel);
      EntriesArePreorder(edges, cs[k].id, serial + 1, fuel - 1);
      EntriesFromArePreorder(edges, cs, k + 1, r.1, fuel);
      var e := MakeEntry(serial + 1, cs[k], r.0);
      var below := if r.0.Some? then Flatten(r.0.value) else [];
      assert FlattenEntry(e) == [e] + below;
      FlattenCons(e, tail.0);
      ThreeParts(e, below, Flatten(tail.0), cs[k], Preorder(edges, Some(cs[k].id), fuel - 1),
                 PreorderFrom(edges, cs, k + 1, fuel), serial + 1);
    }
  }

  lemma FlattenCons(e: Entry, rest: seq<Entry>)
    ensures Flatten([e] + rest) == FlattenEntry(e) + Flatten(rest)
  {
    assert ([e] + rest)[0] == e && ([e] + rest)[1..] == rest;
  }

  /** The array of a child, as `doChildren` assembles it: the payload over `id` and `dbId`, then `children` set or removed. */
  lemma StructureOf(serial: int, child: Child, kids: Option<seq<Entry>>)
    ensures var withData := map["id" := Val(Int(serial)), "dbId" := Val(Int(child.id))]
                            + map key | key in child.data.Keys :: Val(child.data[key]);
      Structure(MakeEntry(serial, child, kids))
      == if kids.None? then withData - {"children"} else withData["children" := List(Structures(kids.value))]
  {
  }

  /** One child's turn: its entry, then the entries of the children after it, from the counter its subtree leaves. */
  lemma EntryStep(edges: Edges, cs: seq<Child>, k: nat, serial: int, fuel: nat)
    requires fuel >= 1 && k < |cs|
    ensures var r := Entries(edges, cs[k].id, serial + 1, fuel - 1);
      && EntriesFrom(edges, cs, k, serial, fuel).0
         == [MakeEntry(serial + 1, cs[k], r.0)] + EntriesFrom(edges, cs, k + 1, r.1, fuel).0
      && EntriesFrom(edges, cs, k, serial, fuel).1 == EntriesFrom(edges, cs, k + 1, r.1, fuel).1
  {
  }

  /** The loop invariant of `doChildren` carried past child `k`. */
  lemma ArraysStep(edges: Edges, cs: seq<Child>, k: nat, all: (seq<Entry>, int), fuel: nat, done: seq<Entry>, n: int)
    requires fuel >= 1 && k < |cs|
    requires all.0 == done + EntriesFrom(edges, cs, k, n, fuel).0
    requires all.1 == EntriesFrom(edges, cs, k, n, fuel).1
    ensures var r := Entries(edges, cs[k].id, n + 1, fuel - 1);
      && all.0 == (done + [MakeEntry(n + 1, cs[k], r.0)]) + EntriesFrom(edges, cs, k + 1, r.1, fuel).0
      && all.1 == EntriesFrom(edges, cs, k + 1, r.1, fuel).1
  {
    EntryStep(edges, cs, k, n, fuel);
    var r := Entries(edges, cs[k].id, n + 1, fuel - 1);
    var rest := EntriesFrom(edges, cs, k + 1, r.1, fuel).0;
    assert done + ([MakeEntry(n + 1, cs[k], r.0)] + rest) == (done + [MakeEntry(n + 1, cs[k], r.0)]) + rest;
  }

  /** The start of a child's array in `doChildren`: `id` and `dbId`, then each payload field copied over them. */
  method WithPayload(serial: int, child: Child) returns (structure: Fields)
    ensures structure == map["id" := Val(Int(serial)), "dbId" := Val(Int(child.id))]
                         + map key | key in child.data.Keys :: Val(child.data[key])
  {
    structure := map["id" := Val(Int(serial)), "dbId" := Val(Int(child.id))];
    var fields := child.data.Keys;
    ghost var copied: set<string> := {};
    while fields != {}
      invariant copied + fields == child.data.Keys && copied !! fields
      invariant structure == map["id" := Val(Int(serial)), "dbId" := Val(Int(child.id))]
                             + map key | key in copied :: Val(child.data[key])
      decreases fields
    {
      var key :| key in fields;
      structure := structure[key := Val(child.data[key])];
      fields := fields - {key};
      copied := copied + {key};
    }
    assert copied == child.data.Keys;
  }

  /**
   * `doChildren`: null for an id without recorded children; otherwise, for
   * each child in recorded order, its array built field by field, its
   * children's arrays from the recursive call, which advance the counter.
   */
  method DoChildren(edges: Edges, id: Id, serial: int, fuel: nat) returns (r: Option<seq<Fields>>, next: int)
    ensures next == Entries(edges, id, serial, fuel).1
    ensures r.None? <==> Entries(edges, id, serial, fuel).0.None?
    ensures r.Some? ==> r.value == Structures(Entries(edges, id, serial, fuel).0.value)
    decreases fuel, 1
  {
    next := serial;
    if fuel == 0 || id !in edges {
      return None, next;
    }
    var container;
    container, next := ChildArrays(edges, edges[id], serial, fuel);
    return Some(container), next;
  }

  /** A child's array: its payload over `id` and `dbId`, then its children's arrays set, or `children` removed when there are none. */
  method ChildArray(serial: int, child: Child, kids: Option<seq<Fields>>, ghost kidEntries: Option<seq<Entry>>)
    returns (structure: Fields)
    requires kids.None? <==> kidEntries.None?
    requires kids.Some? ==> kids.value == Structures(kidEntries.value)
    ensures structure == Structure(MakeEntry(serial, child, kidEntries))
  {
    structure := WithPayload(serial, child);
    if kids.Some? {
      structure := structure["children" := List(kids.value)];
    } else {
      structure := structure - {"children"};
    }
    StructureOf(serial, child, kidEntries);
  }

  /** The loop of `doChildren` over the recorded children `children` of one node. */
  method ChildArrays(edges: Edges, children: seq<Child>, serial: int, fuel: nat) returns (container: seq<Fields>, next: int)
    requires fuel >= 1
    ensures next == EntriesFrom(edges, children, 0, serial, fuel).1
    ensures container == Structures(EntriesFrom(edges, children, 0, serial, fuel).0)
    decreases fuel, 0
  {
    container := [];
    next := serial;
    ghost var done: seq<Entry> := [];
    ghost var all := EntriesFrom(edges, children, 0, serial, fuel);
    for k := 0 to |children|
      invariant container == Structures(done)
      invariant all.0 == done + EntriesFrom(edges, children, k, next, fuel).0
      invariant all.1 == EntriesFrom(edges, children, k, next, fuel).1
    {
      var child := children[k];
      next := next + 1;
      var kids, after := DoChildren(edges, child.id, next, fuel - 1);
      ghost var kidEntries := Entries(edges, child.id, next, fuel - 1).0;
      var structure := ChildArray(next, child, kids, kidEntries);
      ghost var e := MakeEntry(next, child, kidEntries);
      ArraysStep(edges, children, k, all, fuel, done, next - 1);
      StructuresSnoc(done, e);
      container := container + [structure];
      done := done + [e];
      next := after;
    }
    assert done + [] == done;
  }

  /**
   * The Dojo data visitor: the state it records while visiting. Its
   * serial counter is shared by the whole class and is threaded through
   * `ToArray` by the caller.
   */
  class DojodataVisitor {
    var root: Option<Id>
    var edges: Edges

    /** `new Iml_Tree_Visitor_Dojodata($options)`: the options are ignored. */
    constructor ()
      ensures root == None && edges == map[]
    {
      root, edges := None, map[];
    }

    /** `visit`: the state recorded as every visitor records it; it always answers true. */
    method Visit(v: Visit) returns (ok: bool)
      modifies this
      ensures State(root, edges) == Recorded(old(State(root, edges)), v) && ok
    {
      var st := Recorded(State(root, edges), v);
      root, edges := st.root, st.edges;
      ok := true;
    }

    /**
     * `toArray`: the arrays of the children of the node with id 1, whatever
     * root was recorded; the counter moves by the number of descendants of
     * node 1 that were recorded.
     */
    method ToArray(serial: int, fuel: nat) returns (r: Option<seq<Fields>>, next: int)
      ensures next == serial + |Preorder(edges, Some(1), fuel)|
      ensures r.None? <==> fuel == 0 || 1 !in edges
      ensures r.Some? ==> r.value == Structures(EntriesFrom(edges, edges[1], 0, serial, fuel).0)
    {
      r, next := DoChildren(edges, 1, serial, fuel);
      EntriesArePreorder(edges, 1, serial, fuel);
    }

    /** `__toString` is not implemented and always throws. */
    method ToString() returns (r: Result<string, TreeError>)
      ensures r == Err(NotImplemented("__toString"))
    {
      return Err(NotImplemented("__toString"));
    }
  }

  /** Two calls of `toArray` never hand out the same serial number when the first one drew any array. */
  lemma SerialsNeverRepeat(edges: Edges, serial: int, fuel: nat)
    requires fuel >= 1 && 1 in edges && edges[1] != []
    ensures var (first, next) := Entries(edges, 1, serial, fuel);
      var (second, _) := Entries(edges, 1, next, fuel);
      first.Some? && second.Some? && first.value != [] && second.value != []
      && second.value[0].serial > first.value[0].serial
  {
    EntriesArePreorder(edges, 1, serial, fuel);
    var (first, next) := Entries(edges, 1, serial, fuel);
    EntriesArePreorder(edges, 1, next, fuel);
  }
}
