/**
 * A tree node (`Node.php`): its id, the data store of its tree, and its
 * payload, which is fetched from the store on first use and written back
 * when it is replaced after a fetch. `dataFetched` says whether the payload
 * has been loaded, `dataStored` whether it is known to match the store.
 *
 * The data store's `fetchDataForNode` and `storeDataForNode`, which take
 * the node by reference and go through its property setters, are the
 * module-level methods `FetchDataForNode` and `StoreDataForNode`.
 */
module TreeNode {
  import opened Wrappers
  import opened TreeTable
  import opened DataStore

  /** What `__get` returns: one of the node's own properties or a field of its payload. */
  datatype Property =
    | IdProp(id: Option<Id>)
    | TreeProp
    | DataProp(data: Data)
    | FlagProp(flag: bool)
    | FieldProp(value: Value)

  /** The names `__get` and `__set` treat as the node's own properties. */
  predicate IsOwnProperty(name: string) {
    name == "id" || name == "tree" || name == "data" || name == "dataFetched" || name == "dataStored"
  }

  /** `__toString`: the id cast to a string; a node without id gives the empty string. */
  function IdString(id: Option<Id>): (s: string)
    ensures id.None? <==> s == ""
    ensures id.Some? ==> DecimalValue(s) == Some(id.value)
  {
    if id.None? then ""
    else
      DecimalRoundTrip(id.value);
      DecimalString(id.value)
  }

  /** The node's payload and both flags are what they were. */
  twostate predicate Kept(n: Node)
    reads n
  {
    n.data == old(n.data) && n.dataFetched == old(n.dataFetched) && n.dataStored == old(n.dataStored)
  }

  class Node {
    const id: Option<Id>
    const store: TableStore
    var data: Data
    var dataFetched: bool
    var dataStored: bool

    /**
     * A node of the tree whose data store is `store`. Without data the
     * payload is left to be fetched and counts as stored; with data it
     * counts as fetched and not stored. (A missing payload is null in the
     * source; here it is the empty map and is never read before a fetch.)
     */
    constructor (store: TableStore, id: Option<Id>, d: Option<Data>)
      ensures this.store == store && this.id == id
      ensures d.None? ==> data == map[] && !dataFetched && dataStored
      ensures d.Some? ==> data == d.value && dataFetched && !dataStored
    {
      this.store, this.id := store, id;
      if d.None? {
        data, dataFetched, dataStored := map[], false, true;
      } else {
        data, dataFetched, dataStored := d.value, true, false;
      }
    }

    /**
     * Reading `data`: a payload not yet fetched is fetched from the store,
     * exactly once; the fetch assigns it through the setter, which leaves
     * it marked as not stored. A missing row throws and changes nothing.
     */
    method GetData() returns (r: Result<Data, TreeError>)
      requires store.Valid()
      modifies this, store
      decreases 3
      ensures store.Valid() && store.rows == old(store.rows) && store.next == old(store.next)
      ensures old(dataFetched) ==> r == Ok(data) && data == old(data) && dataFetched && dataStored == old(dataStored)
      ensures !old(dataFetched) ==>
        var f := FetchRow(old(store.rows), store.key, store.columns, id);
        && (f.Ok? ==> r == f && data == f.value && dataFetched && !dataStored)
        && (f.Err? ==> r == f && data == old(data) && !dataFetched && dataStored == old(dataStored))
    {
      if !dataFetched {
        var f := FetchDataForNode(this, false);
        if f.Err? {
          return Err(f.error);
        }
        dataFetched := true;
      }
      return Ok(data);
    }

    /**
     * Assigning `data`: the payload is replaced and marked not stored; when
     * it had been fetched, it is written through to the store, which marks
     * it stored once the save succeeds. It ends up fetched in every case.
     */
    method SetData(d: Data, fault: bool) returns (r: Result<(), TreeError>)
      requires store.Valid()
      modifies this, store
      decreases if dataFetched then 5 else 1
      ensures store.Valid() && data == d && dataFetched
      ensures !old(dataFetched) ==> r == Ok(()) && !dataStored && store.rows == old(store.rows) && store.next == old(store.next)
      ensures old(dataFetched) && fault ==>
        r == Err(DatastoreFailure("Data could not be saved")) && !dataStored
        && store.rows == old(store.rows) && store.next == old(store.next)
      ensures old(dataFetched) && !fault ==>
        r == Ok(()) && dataStored && (store.rows, store.next) == Upserted(old(store.rows), old(store.next), store.key, store.columns, id, d)
    {
      data := d;
      dataStored := false;
      if dataFetched {
        var s := StoreDataForNode(this, fault);
        if s.Err? {
          return Err(s.error);
        }
      }
      dataFetched := true;
      return Ok(());
    }

    /**
     * `__get`: the node's own properties are returned as they are, after a
     * fetch for `data`; any other name is a field of the payload, fetched
     * first if need be, and a missing field throws.
     */
    method Get(name: string) returns (r: Result<Property, TreeError>)
      requires store.Valid()
      modifies this, store
      decreases 3
      ensures store.Valid() && store.rows == old(store.rows) && store.next == old(store.next)
      ensures name in {"id", "tree", "dataFetched", "dataStored"} ==> Kept(this)
      ensures name == "id" ==> r == Ok(IdProp(id))
      ensures name == "tree" ==> r == Ok(TreeProp)
      ensures name == "dataFetched" ==> r == Ok(FlagProp(dataFetched))
      ensures name == "dataStored" ==> r == Ok(FlagProp(dataStored))
      ensures !(name in {"id", "tree", "dataFetched", "dataStored"}) ==>
        var f := if old(dataFetched) then Ok(old(data)) else FetchRow(old(store.rows), store.key, store.columns, id);
        && (f.Err? ==> r == Err(f.error) && Kept(this))
        && (f.Ok? ==> data == f.value && dataFetched && dataStored == (old(dataFetched) && old(dataStored)))
        && (f.Ok? && name == "data" ==> r == Ok(DataProp(f.value)))
        && (f.Ok? && name != "data" && name in f.value ==> r == Ok(FieldProp(f.value[name])))
        && (f.Ok? && name != "data" && name !in f.value ==> r == Err(PropertyNotFound(name)))
    {
      if name == "id" {
        return Ok(IdProp(id));
      } else if name == "tree" {
        return Ok(TreeProp);
      } else if name == "dataFetched" {
        return Ok(FlagProp(dataFetched));
      } else if name == "dataStored" {
        return Ok(FlagProp(dataStored));
      }
      var g := GetData();
      if g.Err? {
        return Err(g.error);
      }
      var d := g.value;
      if name == "data" {
        return Ok(DataProp(d));
      }
      if name in d {
        return Ok(FieldProp(d[name]));
      }
      return Err(PropertyNotFound(name));
    }

    /**
     * `__set` for every name but `data` (a payload is a map, assigned with
     * `SetData`): `id` and `tree` are read-only; the two flags take only
     * booleans; any other name must be a field of the (fetched) payload,
     * which is updated in memory and marked not stored; no field is ever
     * added.
     */
    method Set(name: string, v: Value) returns (r: Result<(), TreeError>)
      requires store.Valid() && name != "data"
      modifies this, store
      decreases 3
      ensures store.Valid() && store.rows == old(store.rows) && store.next == old(store.next)
      ensures name == "id" || name == "tree" ==> r == Err(PropertyReadOnly(name)) && Kept(this)
      ensures name == "dataFetched" || name == "dataStored" ==>
        && (v.Bool? ==> r == Ok(()) && data == old(data))
        && (!v.Bool? ==> r == Err(InvalidPropertyValue(name)) && Kept(this))
      ensures name == "dataFetched" && v.Bool? ==> dataFetched == v.b && dataStored == old(dataStored)
      ensures name == "dataStored" && v.Bool? ==> dataStored == v.b && dataFetched == old(dataFetched)
      ensures !IsOwnProperty(name) ==>
        var f := if old(dataFetched) then Ok(old(data)) else FetchRow(old(store.rows), store.key, store.columns, id);
        && (f.Err? ==> r == Err(f.error) && Kept(this))
        && (f.Ok? && name in f.value ==> r == Ok(()) && data == f.value[name := v] && dataFetched && !dataStored)
        && (f.Ok? && name !in f.value ==>
              r == Err(PropertyNotFound(name)) && data == f.value && dataFetched
              && dataStored == (old(dataFetched) && old(dataStored)))
    {
      if name == "id" || name == "tree" {
        return Err(PropertyReadOnly(name));
      } else if name == "dataFetched" || name == "dataStored" {
        if !v.Bool? {
          return Err(InvalidPropertyValue(name));
        }
        if name == "dataFetched" {
          dataFetched := v.b;
        } else {
          dataStored := v.b;
        }
        return Ok(());
      }
      var d :- GetData();
      if name in d {
        data := d[name := v];
        dataStored := false;
        return Ok(());
      }
      return Err(PropertyNotFound(name));
    }

    /** `save`: the payload is stored through the data store. */
    method Save(fault: bool) returns (r: Result<(), TreeError>)
      requires store.Valid()
      modifies this, store
      ensures store.Valid()
      ensures var g := if old(dataFetched) then Ok(old(data)) else FetchRow(old(store.rows), store.key, store.columns, id);
        && (g.Err? ==> r == Err(g.error) && Kept(this) && store.rows == old(store.rows) && store.next == old(store.next))
        && (g.Ok? && fault ==>
              r == Err(DatastoreFailure("Data could not be saved")) && data == g.value && dataFetched
              && dataStored == (old(dataFetched) && old(dataStored))
              && store.rows == old(store.rows) && store.next == old(store.next))
        && (g.Ok? && !fault ==>
              r == Ok(()) && data == g.value && dataFetched && dataStored
              && (store.rows, store.next) == Upserted(old(store.rows), old(store.next), store.key, store.columns, id, g.value))
    {
      r := StoreDataForNode(this, fault);
    }

    /** `__toString`. */
    function ToString(): (s: string)
      ensures id.Some? ==> DecimalValue(s) == Some(id.value)
      ensures id.None? ==> s == ""
    {
      IdString(id)
    }
  }

  /**
   * `fetchDataForNode`: the node's row (or a blank one for a node without
   * id), without its key column, assigned to the node's `data` through the
   * setter. For a node not yet fetched that leaves it fetched and not
   * stored; for a fetched node the setter writes the row back, and only a
   * save that succeeds leaves it stored.
   */
  method FetchDataForNode(node: Node, fault: bool) returns (r: Result<(), TreeError>)
    requires node.store.Valid()
    modifies node, node.store
    decreases if node.dataFetched then 6 else 2
    ensures node.store.Valid()
    ensures var f := FetchRow(old(node.store.rows), node.store.key, node.store.columns, node.id);
      && (f.Err? ==> r == Err(f.error) && Kept(node) && node.store.rows == old(node.store.rows) && node.store.next == old(node.store.next))
      && (f.Ok? ==> node.data == f.value && node.dataFetched)
      && (f.Ok? && !old(node.dataFetched) ==>
            r == Ok(()) && !node.dataStored
            && node.store.rows == old(node.store.rows) && node.store.next == old(node.store.next))
      && (f.Ok? && old(node.dataFetched) && fault ==>
            r == Err(DatastoreFailure("Data could not be saved")) && !node.dataStored
            && node.store.rows == old(node.store.rows) && node.store.next == old(node.store.next))
      && (f.Ok? && old(node.dataFetched) && !fault ==>
            r == Ok(()) && node.dataStored
            && (node.store.rows, node.store.next) == Upserted(old(node.store.rows), old(node.store.next), node.store.key, node.store.columns, node.id, f.value))
  {
    var d :- FetchRow(node.store.rows, node.store.key, node.store.columns, node.id);
    r := node.SetData(d, fault);
  }

  /**
   * `storeDataForNode`: the node's payload (fetched first if need be) is
   * saved into its row, which is created when missing; only a successful
   * save marks it stored, and a failing one is reported as a data store
   * exception.
   */
  method StoreDataForNode(node: Node, fault: bool) returns (r: Result<(), TreeError>)
    requires node.store.Valid()
    modifies node, node.store
    decreases 4
    ensures node.store.Valid()
    ensures var g := if old(node.dataFetched) then Ok(old(node.data)) else FetchRow(old(node.store.rows), node.store.key, node.store.columns, node.id);
      && (g.Err? ==> r == Err(g.error) && Kept(node) && node.store.rows == old(node.store.rows) && node.store.next == old(node.store.next))
      && (g.Ok? ==> node.data == g.value && node.dataFetched)
      && (g.Ok? && fault ==>
            r == Err(DatastoreFailure("Data could not be saved"))
            && node.dataStored == (old(node.dataFetched) && old(node.dataStored))
            && node.store.rows == old(node.store.rows) && node.store.next == old(node.store.next))
      && (g.Ok? && !fault ==>
            r == Ok(()) && node.dataStored
            && (node.store.rows, node.store.next) == Upserted(old(node.store.rows), old(node.store.next), node.store.key, node.store.columns, node.id, g.value))
  {
    var d :- node.GetData();
    var s := node.store.Upsert(node.id, d, fault);
    if s.Err? {
      return Err(s.error);
    }
    node.dataStored := true;
    return Ok(());
  }
}
