/**
 * A list of tree nodes keyed by node id (`Nodelist.php`), the iterator over
 * it (`Nodelist/Iterator.php`), and the data store's `fetchDataForNodes`,
 * which fetches the payloads of the nodes of a list.
 *
 * A PHP array keeps its keys in insertion order; re-assigning an existing key
 * keeps its place and unsetting a key removes it. The list holds that order
 * in `keys` and the nodes in `nodes`. A node without id sits under the key
 * `None` (PHP's `""`).
 */
module NodeList {
  import opened Wrappers
  import opened TreeTable
  import opened DataStore
  import opened TreeNode

  /** The key order after `k` is assigned: a new key goes last, an existing one stays where it is. */
  function Added(keys: seq<Option<Id>>, k: Option<Id>): (r: seq<Option<Id>>)
    ensures k in r && (forall j :: j in r <==> j in keys || j == k)
    ensures k in keys ==> r == keys
    ensures k !in keys ==> |r| == |keys| + 1
  {
    if k in keys then keys else keys + [k]
  }

  /** The key order after `k` is unset: every other key keeps its relative place. */
  function Removed(keys: seq<Option<Id>>, k: Option<Id>): (r: seq<Option<Id>>)
    ensures forall j :: j in r <==> j in keys && j != k
    ensures |r| <= |keys|
  {
    if keys == [] then []
    else if keys[0] == k then Removed(keys[1..], k)
    else [keys[0]] + Removed(keys[1..], k)
  }

  /** Without repeated keys, removing a present key shortens the order by one. */
  lemma {:induction false} RemovedLength(keys: seq<Option<Id>>, k: Option<Id>)
    requires NoDups(keys)
    ensures NoDups(Removed(keys, k))
    ensures |Removed(keys, k)| == if k in keys then |keys| - 1 else |keys|
  {
    if keys != [] {
      RemovedLength(keys[1..], k);
      assert keys[0] !in keys[1..] by { assert forall i :: 1 <= i < |keys| ==> keys[i] == keys[1..][i - 1]; }
      assert k in keys <==> keys[0] == k || k in keys[1..];
    }
  }

  // ---------------------------------------------------------------------
  // The count kept alongside the nodes

  /** The calls that change a list: `addNode` (or `offsetSet`) of a node with that id, and `offsetUnset`. */
  datatype ListOp = AddOp(key: Option<Id>) | UnsetOp(key: Option<Id>)

  /** The keys of the list after the calls. */
  function KeysAfter(ops: seq<ListOp>): (r: seq<Option<Id>>)
    ensures NoDups(r)
  {
    if ops == [] then []
    else
      var keys := KeysAfter(ops[..|ops| - 1]);
      match ops[|ops| - 1]
      case AddOp(k) => Added(keys, k)
      case UnsetOp(k) => RemovedLength(keys, k); Removed(keys, k)
  }

  /** `_count` after the calls, as written: every `addNode` adds one and every `offsetUnset` takes one away. */
  function CountAsWritten(ops: seq<ListOp>): int {
    if ops == [] then 0
    else CountAsWritten(ops[..|ops| - 1]) + (if ops[|ops| - 1].AddOp? then 1 else -1)
  }

  /** Every call changes the list: no id is added twice and only present ids are unset. */
  ghost predicate EachCallChanges(ops: seq<ListOp>) {
    forall i :: 0 <= i < |ops| ==> (ops[i].key in KeysAfter(ops[..i]) <==> ops[i].UnsetOp?)
  }

  /** The count as written agrees with the number of nodes exactly while every call changes the list. */
  lemma {:induction false} CountAsWrittenWhenEachCallChanges(ops: seq<ListOp>)
    requires EachCallChanges(ops)
    ensures CountAsWritten(ops) == |KeysAfter(ops)|
  {
    if ops != [] {
      var front := ops[..|ops| - 1];
      forall i | 0 <= i < |front| ensures (front[i].key in KeysAfter(front[..i]) <==> front[i].UnsetOp?) {
        assert front[..i] == ops[..i];
      }
      CountAsWrittenWhenEachCallChanges(front);
      assert ops[..|ops| - 1] == front;
      RemovedLength(KeysAfter(front), ops[|ops| - 1].key);
    }
  }

  /** Adding the same node twice counts it twice; unsetting an absent id brings a one-node list to zero. */
  lemma CountAsWrittenDrifts()
    ensures var twice := [AddOp(Some(1)), AddOp(Some(1))];
      CountAsWritten(twice) == 2 && KeysAfter(twice) == [Some(1)]
    ensures var stray := [AddOp(Some(1)), UnsetOp(Some(2))];
      CountAsWritten(stray) == 0 && KeysAfter(stray) == [Some(1)]
  {
    var twice := [AddOp(Some(1)), AddOp(Some(1))];
    assert twice[..1] == [AddOp(Some(1))] && [AddOp(Some(1))][..0] == [];
    var stray := [AddOp(Some(1)), UnsetOp(Some(2))];
    assert stray[..1] == [AddOp(Some(1))];
  }

  /**
   * `getIterator` as written, on a list built by `ops`: no iterator when the
   * count is zero; a fatal error when the count is not zero but the list is
   * empty (the first element is `false`); with prefetching, the iterator's
   * read of the tree's protected `_properties` goes to the tree's `__get`,
   * which throws.
   */
  function IteratorAsWritten(ops: seq<ListOp>, prefetch: bool): (r: Result<bool, TreeError>)
    ensures r == Ok(false) <==> CountAsWritten(ops) == 0
    ensures r.Ok? && prefetch ==> r == Ok(false)
  {
    if CountAsWritten(ops) == 0 then Ok(false)
    else if KeysAfter(ops) == [] then Err(Fatal("getIterator on an empty list with a non-zero count"))
    else if prefetch then Err(PropertyNotFound("_properties"))
    else Ok(true)
  }

  /**
   * `fetchDataForNodes` of the list as written: nothing for a zero count;
   * otherwise the tree's `store`, a property trees do not have, is read and
   * the tree's `__get` throws.
   */
  function FetchAllAsWritten(ops: seq<ListOp>): (r: Result<(), TreeError>)
    ensures r.Ok? <==> CountAsWritten(ops) == 0
  {
    if CountAsWritten(ops) == 0 then Ok(())
    else if KeysAfter(ops) == [] then Err(Fatal("fetchDataForNodes on an empty list with a non-zero count"))
    else Err(PropertyNotFound("store"))
  }

  /** A list with a node in it gets no iterator and no prefetch when an unset of an absent id came before. */
  lemma AsWrittenListMisbehaves()
    ensures var stray := [AddOp(Some(1)), UnsetOp(Some(2))];
      |KeysAfter(stray)| == 1 && IteratorAsWritten(stray, false) == Ok(false)
    ensures FetchAllAsWritten([AddOp(Some(1))]) == Err(PropertyNotFound("store"))
    ensures forall ops :: CountAsWritten(ops) != 0 ==> IteratorAsWritten(ops, true).Err?
  {
    CountAsWrittenDrifts();
    assert [AddOp(Some(1))][..0] == [];
  }

  // ---------------------------------------------------------------------
  // The list

  /** What the list's `__get` returns. */
  datatype ListProperty = NodesProp(nodes: map<Option<Id>, Node>) | SizeProp(size: nat)

  class Nodelist {
    var keys: seq<Option<Id>>
    var nodes: map<Option<Id>, Node>

    /** The order holds every key once, and each node sits under its own id. */
    ghost predicate Valid()
      reads this
    {
      && NoDups(keys)
      && (forall k :: k in nodes <==> k in keys)
      && (forall k :: k in nodes ==> nodes[k].id == k)
    }

    /** An empty list. */
    constructor ()
      ensures Valid() && keys == [] && nodes == map[]
    {
      keys, nodes := [], map[];
    }

    /** `count`: the number of nodes in the list (see `CountAsWritten` for the count as written). */
    function Count(): (n: nat)
      reads this
      requires Valid()
      ensures n == |nodes|
      ensures n == 0 <==> nodes == map[]
    {
      KeyCount(keys, nodes);
      |keys|
    }

    /** `__get`: `nodes` and `size` are readable; nothing else is. */
    function Get(name: string): (r: Result<ListProperty, TreeError>)
      reads this
      requires Valid()
      ensures name == "nodes" ==> r == Ok(NodesProp(nodes))
      ensures name == "size" ==> r == Ok(SizeProp(|nodes|))
      ensures name != "nodes" && name != "size" ==> r == Err(PropertyNotFound(name))
    {
      if name == "nodes" then Ok(NodesProp(nodes))
      else if name == "size" then Ok(SizeProp(Count()))
      else Err(PropertyNotFound(name))
    }

    /** `__set`: both properties are read-only and there are no others. */
    function Set(name: string): (r: Result<(), TreeError>)
      ensures r.Err?
      ensures name == "nodes" || name == "size" ==> r == Err(PropertyReadOnly(name))
      ensures name != "nodes" && name != "size" ==> r == Err(PropertyNotFound(name))
    {
      if name == "nodes" || name == "size" then Err(PropertyReadOnly(name)) else Err(PropertyNotFound(name))
    }

    /** `offsetExists`. */
    function OffsetExists(k: Option<Id>): (b: bool)
      reads this
      requires Valid()
      ensures b <==> k in keys
    {
      k in nodes
    }

    /** `offsetGet`: the node under `k`; a missing key gives null. */
    function OffsetGet(k: Option<Id>): (r: Option<Node>)
      reads this
      requires Valid()
      ensures r.Some? <==> k in keys
      ensures r.Some? ==> r.value.id == k
    {
      if k in nodes then Some(nodes[k]) else None
    }

    /**
     * `addNode`: the node is put under its own id, replacing a node with that
     * id in place; the result is the number of nodes before the call.
     */
    method AddNode(node: Node) returns (before: nat)
      requires Valid()
      modifies this
      ensures Valid()
      ensures keys == Added(old(keys), node.id) && nodes == old(nodes)[node.id := node]
      ensures before == |old(nodes)|
      ensures |nodes| == if node.id in old(nodes) then before else before + 1
    {
      before := Count();
      if node.id !in nodes {
        keys := keys + [node.id];
      }
      nodes := nodes[node.id := node];
      KeyCount(keys, nodes);
    }

    /** `offsetSet`: the offset is ignored; the node goes under its own id. */
    method OffsetSet(k: Option<Id>, node: Node)
      requires Valid()
      modifies this
      ensures Valid()
      ensures keys == Added(old(keys), node.id) && nodes == old(nodes)[node.id := node]
    {
      var _ := AddNode(node);
    }

    /** `offsetUnset`: the key is removed if present; the result is the number of nodes before the call. */
    method OffsetUnset(k: Option<Id>) returns (before: nat)
      requires Valid()
      modifies this
      ensures Valid()
      ensures keys == Removed(old(keys), k) && nodes == old(nodes) - {k}
      ensures before == |old(nodes)|
      ensures |nodes| == if k in old(nodes) then before - 1 else before
    {
      before := Count();
      RemovedLength(keys, k);
      keys := Removed(keys, k);
      nodes := nodes - {k};
      KeyCount(keys, nodes);
    }

    /** Every node of the list belongs to the same data store: the nodes of one tree. */
    ghost predicate SharedStore(store: TableStore)
      reads this
    {
      forall k :: k in nodes ==> nodes[k].store == store
    }

    /**
     * `fetchDataForNodes` of the list, as evidently intended: an empty list
     * returns at once; otherwise the data store of the tree of its first
     * node fetches the data of every node in it.
     */
    method FetchDataForNodes(ghost store: TableStore) returns (r: Result<(), TreeError>)
      requires Valid() && SharedStore(store) && store.Valid()
      modifies nodes.Values, store
      ensures store.Valid() && store.rows == old(store.rows) && store.next == old(store.next)
      ensures r.Ok? <==> forall k :: k in nodes ==> Fetchable(store.rows, old(nodes[k].dataFetched), k)
      ensures r.Ok? ==> forall k :: k in nodes ==> FetchedAfter(nodes[k], store.rows, old(nodes[k].data), old(nodes[k].dataFetched), old(nodes[k].dataStored))
      ensures r.Err? ==> r.error == DatastoreFailure("Datastore is missing data for the node")
      ensures r.Err? ==> exists i :: FailedAt(keys, nodes, store.rows, i)
    {
      if keys == [] {
        return Ok(());
      }
      var first := nodes[keys[0]];
      r := FetchAll(first.store, this);
    }

    /** `getIterator` with corrected counting and prefetching: no iterator for an empty list. */
    method GetIterator(prefetch: bool, ghost store: TableStore) returns (r: Result<Option<Iterator>, TreeError>)
      requires Valid() && SharedStore(store) && store.Valid()
      modifies nodes.Values, store
      ensures store.Valid() && store.rows == old(store.rows) && store.next == old(store.next)
      ensures r == Ok(None) <==> old(keys) == []
      ensures r.Ok? && r.value.Some? ==> fresh(r.value.value) && r.value.value.keys == keys && r.value.value.Unstarted()
      ensures !prefetch ==> r.Ok? && forall k :: k in nodes ==> Kept(nodes[k])
      ensures prefetch && r.Ok? ==> forall k :: k in nodes ==> FetchedAfter(nodes[k], store.rows, old(nodes[k].data), old(nodes[k].dataFetched), old(nodes[k].dataStored))
    {
      if keys == [] {
        return Ok(None);
      }
      if prefetch {
        var f := FetchAll(nodes[keys[0]].store, this);
        if f.Err? {
          return Err(f.error);
        }
      }
      var it := new Iterator(this);
      return Ok(Some(it));
    }
  }

  /** With the keys of a list in order, the list has as many nodes as keys. */
  lemma KeyCount(keys: seq<Option<Id>>, nodes: map<Option<Id>, Node>)
    requires NoDups(keys) && forall k :: k in nodes <==> k in keys
    ensures |nodes| == |keys|
  {
    var ks := set i | 0 <= i < |keys| :: keys[i];
    assert nodes.Keys == ks;
    SeqSetSize(keys);
  }

  /** A sequence without repeats has as many distinct elements as entries. */
  lemma {:induction false} SeqSetSize(keys: seq<Option<Id>>)
    requires NoDups(keys)
    ensures |set i | 0 <= i < |keys| :: keys[i]| == |keys|
  {
    if keys != [] {
      var rest := keys[1..];
      SeqSetSize(rest);
      var a := set i | 0 <= i < |keys| :: keys[i];
      var b := set i | 0 <= i < |rest| :: rest[i];
      assert a == b + {keys[0]} by {
        forall x | x in a ensures x in b + {keys[0]} {
          var i :| 0 <= i < |keys| && keys[i] == x;
          if i > 0 { assert rest[i - 1] == x; }
        }
        forall x | x in b ensures x in a {
          var i :| 0 <= i < |rest| && rest[i] == x;
          assert keys[i + 1] == x;
        }
      }
      assert keys[0] !in b by {
        forall i | 0 <= i < |rest| ensures rest[i] != keys[0] {
          assert rest[i] == keys[i + 1];
        }
      }
    }
  }

  // ---------------------------------------------------------------------
  // The data store's fetch over a list

  /** A node whose payload the store can provide: it is fetched already, or it has no id, or its row exists. */
  predicate Fetchable(rows: Rows, fetched: bool, k: Option<Id>) {
    fetched || k.None? || k.value in rows
  }

  /** A node after the fetch over its list: loaded ones are untouched, the others now hold the store's row. */
  predicate FetchedAfter(n: Node, rows: Rows, data0: Data, fetched0: bool, stored0: bool)
    reads n
  {
    if fetched0 then n.data == data0 && n.dataFetched && n.dataStored == stored0
    else n.dataFetched && !n.dataStored && FetchRow(rows, n.store.key, n.store.columns, n.id) == Ok(n.data)
  }

  /**
   * A fetch over the list that stopped at its `i`-th key: the nodes before it
   * were fetched, that node's row is missing, and it and every later node
   * are untouched.
   */
  twostate predicate FailedAt(keys: seq<Option<Id>>, nodes: map<Option<Id>, Node>, rows: Rows, i: int)
    reads nodes.Values
  {
    && 0 <= i < |keys| && keys[i] in nodes
    && (forall j :: 0 <= j < i && keys[j] in nodes ==>
          FetchedAfter(nodes[keys[j]], rows, old(nodes[keys[j]].data), old(nodes[keys[j]].dataFetched), old(nodes[keys[j]].dataStored)))
    && !Fetchable(rows, old(nodes[keys[i]].dataFetched), keys[i])
    && (forall j :: i <= j < |keys| && keys[j] in nodes ==> Kept(nodes[keys[j]]))
  }

  /**
   * `fetchDataForNodes` of the data store: in list order, each node not yet
   * fetched is fetched; the first node whose row is missing throws and stops
   * the loop.
   */
  method FetchAll(store: TableStore, list: Nodelist) returns (r: Result<(), TreeError>)
    requires list.Valid() && list.SharedStore(store) && store.Valid()
    modifies list.nodes.Values, store
    ensures store.Valid() && store.rows == old(store.rows) && store.next == old(store.next)
    ensures r.Ok? <==> forall i :: 0 <= i < |list.keys| ==> Fetchable(store.rows, old(list.nodes[list.keys[i]].dataFetched), list.keys[i])
    ensures r.Ok? ==> forall i :: 0 <= i < |list.keys| ==> FetchedAfter(list.nodes[list.keys[i]], store.rows,
      old(list.nodes[list.keys[i]].data), old(list.nodes[list.keys[i]].dataFetched), old(list.nodes[list.keys[i]].dataStored))
    ensures r.Err? ==> r.error == DatastoreFailure("Datastore is missing data for the node")
    ensures r.Err? ==> exists i :: FailedAt(list.keys, list.nodes, store.rows, i)
  {
    var keys, nodes := list.keys, list.nodes;
    for i := 0 to |keys|
      invariant store.Valid() && store.rows == old(store.rows) && store.next == old(store.next)
      invariant forall j :: 0 <= j < i ==>
        FetchedAfter(nodes[keys[j]], store.rows, old(nodes[keys[j]].data), old(nodes[keys[j]].dataFetched), old(nodes[keys[j]].dataStored))
      invariant forall j :: i <= j < |keys| ==> Kept(nodes[keys[j]])
    {
      var node := nodes[keys[i]];
      if !node.dataFetched {
        var f := FetchDataForNode(node, false);
        if f.Err? {
          assert FailedAt(keys, nodes, store.rows, i);
          return Err(f.error);
        }
      }
    }
    return Ok(());
  }

  // ---------------------------------------------------------------------
  // The iterator

  /**
   * An iterator over a snapshot of a list's nodes: the keys and the nodes in
   * list order, a position, and whether the position is valid.
   */
  class Iterator {
    const keys: seq<Option<Id>>
    const nodes: seq<Node>
    var pos: nat
    var valid: bool

    /** Before `rewind`: at the first node, reported as not valid. */
    ghost predicate Unstarted()
      reads this
    {
      pos == 0 && !valid && |nodes| == |keys|
    }

    /** The snapshot of the list's nodes, with the position at the first one. */
    constructor (list: Nodelist)
      requires list.Valid()
      ensures keys == list.keys && |nodes| == |keys|
      ensures forall i :: 0 <= i < |keys| ==> nodes[i] == list.nodes[keys[i]]
      ensures Unstarted()
    {
      keys := list.keys;
      var ks, ns := list.keys, list.nodes;
      nodes := seq(|ks|, i requires 0 <= i < |ks| && ks[i] in ns => ns[ks[i]]);
      pos, valid := 0, false;
    }

    /** `rewind`: back to the first node; valid when there is one. */
    method Rewind()
      modifies this
      ensures pos == 0 && (valid <==> |keys| > 0)
    {
      pos := 0;
      valid := |keys| > 0;
    }

    /** `key`: the key at the position; null once past the end. */
    method Key() returns (k: Option<Option<Id>>)
      ensures k.Some? <==> pos < |keys|
      ensures k.Some? ==> k.value == keys[pos]
    {
      k := if pos < |keys| then Some(keys[pos]) else None;
    }

    /** `current`: the node at the position; `false` once past the end. */
    method Current() returns (n: Option<Node>)
      requires |nodes| == |keys|
      ensures n.Some? <==> pos < |keys|
      ensures n.Some? ==> n.value == nodes[pos]
    {
      n := if pos < |nodes| then Some(nodes[pos]) else None;
    }

    /** `next`: one node on; past the last node the iterator is no longer valid. */
    method Next()
      modifies this
      ensures pos == if old(pos) < |keys| then old(pos) + 1 else old(pos)
      ensures valid == (old(valid) && pos < |keys|)
    {
      if pos < |keys| {
        pos := pos + 1;
      }
      if pos >= |keys| {
        valid := false;
      }
    }

    /** `valid`. */
    method Valid() returns (b: bool)
      ensures b == valid
    {
      b := valid;
    }
  }

  /** A `foreach` over the iterator: every key of the snapshot, once each, in list order. */
  method Traverse(it: Iterator) returns (seen: seq<Option<Id>>)
    modifies it
    ensures seen == it.keys
  {
    it.Rewind();
    seen := [];
    var more := it.Valid();
    while more
      invariant it.pos == |seen| <= |it.keys| && seen == it.keys[..it.pos]
      invariant more == it.valid && (more <==> it.pos < |it.keys|)
      decreases |it.keys| - it.pos
    {
      var k := it.Key();
      seen := seen + [k.value];
      it.Next();
      more := it.Valid();
    }
    assert it.keys[..|it.keys|] == it.keys;
  }
}
