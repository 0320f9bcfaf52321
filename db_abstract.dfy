/**
 * The part shared by the database backends (`Backend/Db/Abstract.php`): the
 * configuration keys the constructor keeps, the set-up of the tree store and
 * the data store, and the lookups on the `pid` column of the tree table.
 */
module DbBackend {
  import opened Wrappers
  import opened TreeTable

  /** The `pid` column of the tree table, by id. */
  type Parents = map<Id, Option<Id>>

  /** Every stored id was handed out by the auto-increment counter `next`. */
  ghost predicate Ahead(t: Parents, next: Id) {
    forall a :: a in t ==> a < next
  }

  // ---------------------------------------------------------------------
  // Configuration

  /** The two configuration keys the constructor recognises. */
  predicate IsStoreKey(k: string) {
    k == "treeStore" || k == "dataStore"
  }

  /** The value of the last entry for `k` in `config`: the one a later assignment leaves behind. */
  function LastValue(config: seq<(string, StoreSpec)>, k: string): (r: Option<StoreSpec>)
    ensures r.None? <==> forall i :: 0 <= i < |config| ==> config[i].0 != k
    ensures r.Some? ==> exists i :: 0 <= i < |config| && config[i] == (k, r.value)
                          && forall j :: i < j < |config| ==> config[j].0 != k
  {
    if config == [] then None
    else if config[|config| - 1].0 == k then Some(config[|config| - 1].1)
    else LastValue(config[..|config| - 1], k)
  }

  /** The store entries of `config`: for each of the two keys, the value of its last entry. */
  function StoreEntries(config: seq<(string, StoreSpec)>): (props: map<string, StoreSpec>)
    ensures forall k :: k in props <==> IsStoreKey(k) && LastValue(config, k).Some?
    ensures forall k :: k in props ==> props[k] == LastValue(config, k).value
  {
    map k | k in {"treeStore", "dataStore"} && LastValue(config, k).Some? :: LastValue(config, k).value
  }

  /**
   * The constructor's loop over its configuration: the `treeStore` and
   * `dataStore` entries are written into the properties, every other entry
   * is ignored.
   */
  method KeepStoreKeys(config: seq<(string, StoreSpec)>) returns (props: map<string, StoreSpec>)
    ensures forall k :: k in props <==> IsStoreKey(k) && LastValue(config, k).Some?
    ensures forall k :: k in props ==> props[k] == LastValue(config, k).value
  {
    props := map[];
    for i := 0 to |config|
      invariant forall k :: k in props <==> IsStoreKey(k) && LastValue(config[..i], k).Some?
      invariant forall k :: k in props ==> props[k] == LastValue(config[..i], k).value
    {
      assert config[..i + 1][..i] == config[..i];
      var (key, value) := config[i];
      if key == "treeStore" {
        props := props["treeStore" := value];
      } else if key == "dataStore" {
        props := props["dataStore" := value];
      }
    }
    assert config[..|config|] == config;
  }

  /** What the `default:` branch of either set-up does: it reads the message of an undefined `$e`. */
  const UNDEFINED_E := Fatal("Call to a member function getMessage() on a non-object")

  /**
   * `_setupTreeStore` and `_setupDataStore` as written: a missing tree store
   * throws; an object of the store class is kept; a class name is loaded and
   * the new instance assigned to the property, an assignment the tree's
   * property setter always refuses, so the set-up fails; any other value,
   * and a missing data store (read as null), reaches the `default:` branch,
   * which stops with a fatal error.
   */
  function SetupStore(props: map<string, StoreSpec>, key: string): (r: Result<(), TreeError>)
    requires IsStoreKey(key)
    ensures r.Ok? <==> key in props && props[key] == Instance
    ensures key == "treeStore" && key !in props ==> r == Err(MissingTreeStore)
    ensures key in props && props[key].ClassName? ==> r == Err(StoreSetupFailed(key))
    ensures (key in props && props[key] == Other) || (key == "dataStore" && key !in props) ==> r == Err(UNDEFINED_E)
  {
    if key !in props then
      if key == "treeStore" then Err(MissingTreeStore) else Err(UNDEFINED_E)
    else
      match props[key]
      case Instance => Ok(())
      case ClassName(_) => Err(StoreSetupFailed(key))
      case Other => Err(UNDEFINED_E)
  }

  /** As written, a tree store of the wrong kind, or no data store at all, is a fatal error and not an exception. */
  lemma UnknownStoreFatalAsWritten(key: string)
    requires IsStoreKey(key)
    ensures SetupStore(map[key := Other], key) == Err(UNDEFINED_E)
    ensures SetupStore(map["treeStore" := Instance], "dataStore") == Err(UNDEFINED_E)
  {
  }

  /** As intended, the same configurations throw the backend's exception naming the store. */
  lemma UnknownStoreRefusedIntended(key: string, loadable: set<string>)
    requires IsStoreKey(key)
    ensures SetupStoreIntended(map[key := Other], key, loadable) == Err(StoreSetupFailed(key))
    ensures SetupStoreIntended(map["treeStore" := Instance], "dataStore", loadable) == Err(StoreSetupFailed("dataStore"))
  {
  }

  /** A store configured by a class name is never set up by the code as written. */
  lemma ClassNameStoreRefused(key: string, name: string)
    requires IsStoreKey(key)
    ensures SetupStore(map[key := ClassName(name)], key) == Err(StoreSetupFailed(key))
  {
  }

  /**
   * The set-up as evidently intended: a class name that can be loaded
   * (`loadable`) yields a store instance.
   */
  function SetupStoreIntended(props: map<string, StoreSpec>, key: string, loadable: set<string>): (r: Result<StoreSpec, TreeError>)
    requires IsStoreKey(key)
    ensures r.Ok? <==> key in props && (props[key] == Instance || (props[key].ClassName? && props[key].name in loadable))
    ensures r.Ok? ==> r.value == Instance
    ensures key == "treeStore" && key !in props ==> r == Err(MissingTreeStore)
    ensures r.Err? && (key == "dataStore" || key in props) ==> r == Err(StoreSetupFailed(key))
  {
    if key !in props then
      if key == "treeStore" then Err(MissingTreeStore) else Err(StoreSetupFailed(key))
    else
      match props[key]
      case Instance => Ok(Instance)
      case ClassName(name) => if name in loadable then Ok(Instance) else Err(StoreSetupFailed(key))
      case Other => Err(StoreSetupFailed(key))
  }

  /** Every loadable class name is accepted by the intended set-up, and the code as written accepts none. */
  lemma ClassNameStoreIntended(key: string, name: string, loadable: set<string>)
    requires IsStoreKey(key) && name in loadable
    ensures SetupStoreIntended(map[key := ClassName(name)], key, loadable) == Ok(Instance)
    ensures SetupStore(map[key := ClassName(name)], key).Err?
  {
  }

  /**
   * The constructor: keep the store entries of `config`, then set up the tree
   * store and the data store in that order, each as intended (the first
   * failure is thrown as the backend's exception).
   */
  method Construct(config: seq<(string, StoreSpec)>, loadable: set<string>) returns (r: Result<map<string, StoreSpec>, TreeError>)
    ensures var props := StoreEntries(config);
      && (r.Ok? <==> SetupStoreIntended(props, "treeStore", loadable).Ok? && SetupStoreIntended(props, "dataStore", loadable).Ok?)
      && (LastValue(config, "treeStore").None? ==> r == Err(MissingTreeStore))
      && (r.Err? && LastValue(config, "treeStore").Some? ==> r.error.StoreSetupFailed?)
    ensures r.Ok? ==> r.value == map["treeStore" := Instance, "dataStore" := Instance]
  {
    var props := KeepStoreKeys(config);
    assert props == StoreEntries(config);
    var treeStore :- SetupStoreIntended(props, "treeStore", loadable);
    var dataStore :- SetupStoreIntended(props, "dataStore", loadable);
    return Ok(map["treeStore" := treeStore, "dataStore" := dataStore]);
  }

  // ---------------------------------------------------------------------
  // Lookups

  /** `checkNodeId` of the database backends: ids are generated on save, so a new node's id must be null. */
  function CheckNodeId(id: Option<Id>): (r: Result<(), TreeError>)
    ensures r.Ok? <==> id.None?
    ensures r.Err? ==> r.error == NodeIdMustBeNull
  {
    if id.None? then Ok(()) else Err(NodeIdMustBeNull)
  }

  /** `nodeExists`: a row with that id is found. */
  function NodeExists(t: Parents, a: Id): (b: bool)
    ensures b <==> a in t.Keys
  {
    a in t
  }

  /** `_getParentId`: the `pid` of the node's row; an unknown id throws. */
  function ParentId(t: Parents, a: Id): (r: Result<Option<Id>, TreeError>)
    ensures r.Ok? <==> NodeExists(t, a)
    ensures r.Ok? ==> r.value == t[a]
    ensures r.Err? ==> r.error == NodeNotFound(a)
  {
    if a in t then Ok(t[a]) else Err(NodeNotFound(a))
  }

  /**
   * `fetchParent`: null for a node without parent, otherwise (the id of) a
   * node object for the parent; an unknown id throws. The parent row itself
   * is not looked up.
   */
  function FetchParent(t: Parents, a: Id): (r: Result<Option<Id>, TreeError>)
    ensures r.Err? <==> a !in t
    ensures r.Ok? ==> (r.value.None? <==> t[a].None?) && (r.value.Some? ==> Some(r.value.value) == t[a])
  {
    var pid :- ParentId(t, a);
    if pid == None then Ok(None) else Ok(Some(pid.value))
  }

  /** The first id of `ids` whose row has no parent. */
  function FirstRoot(t: Parents, ids: seq<Id>): (r: Option<Id>)
    requires forall i :: 0 <= i < |ids| ==> ids[i] in t
    ensures r.Some? ==> r.value in ids && t[r.value] == None
    ensures r.None? <==> forall i :: 0 <= i < |ids| ==> t[ids[i]] != None
    ensures r.Some? ==> forall i :: 0 <= i < |ids| && ids[i] != r.value && t[ids[i]] == None ==>
      exists j :: 0 <= j < i && ids[j] == r.value
  {
    if ids == [] then None
    else if t[ids[0]] == None then Some(ids[0])
    else
      var r := FirstRoot(t, ids[1..]);
      assert r.Some? ==> forall i :: 1 <= i < |ids| && ids[i] != r.value && t[ids[i]] == None ==>
        exists j :: 1 <= j < i && ids[j] == r.value by {
        if r.Some? {
          forall i | 1 <= i < |ids| && ids[i] != r.value && t[ids[i]] == None
            ensures exists j :: 1 <= j < i && ids[j] == r.value
          {
            assert ids[1..][i - 1] == ids[i];
            var j :| 0 <= j < i - 1 && ids[1..][j] == r.value;
            assert ids[j + 1] == r.value;
          }
        }
      }
      r
  }

  /** The first root in ascending store order has the smallest id of all roots. */
  lemma RootIsLeast(t: Parents, next: Id, ids: seq<Id>, r: Option<Id>)
    requires ids == KeysBelow(t, next) && r == FirstRoot(t, ids)
    ensures r.Some? ==> forall a :: a in t && t[a] == None ==> r.value <= a
  {
    if r.Some? {
      forall a | a in t && t[a] == None && a < next && a != r.value ensures r.value <= a {
        var i :| 0 <= i < |ids| && ids[i] == a;
        var k :| 0 <= k < i && ids[k] == r.value;
      }
    }
  }

  /**
   * `getRootNode`: the first row in store order with a null `pid`, or null
   * when there is none. A root is found exactly when some row has no parent,
   * and it is the one with the smallest id.
   */
  function GetRootNode(t: Parents, next: Id): (r: Option<Id>)
    ensures Ahead(t, next) ==> (r.None? <==> forall a :: a in t ==> t[a] != None)
    ensures r.Some? ==> r.value in t && t[r.value] == None
    ensures r.Some? ==> forall a :: a in t && t[a] == None ==> r.value <= a
  {
    var ids := KeysBelow(t, next);
    var r := FirstRoot(t, ids);
    RootIsLeast(t, next, ids, r);
    r
  }
}
