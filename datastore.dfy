/**
 * The table data store of a tree (`Datastore/Db/Table/Abstract.php`): a
 * table whose single-column primary key is the node id and whose other
 * columns hold a node's payload.
 *
 * A row is a map from every column of the table (key included) to its
 * value. A blank row holds null in every column. A data map is applied to a
 * row column by column; names that are not columns of the table are
 * ignored, as the row's `setFromArray` drops them.
 */
module DataStore {
  import opened Wrappers
  import opened TreeTable

  /** `init`: a compound primary key is refused. */
  function Init(primary: seq<string>): (r: Result<(), TreeError>)
    ensures r.Ok? <==> |primary| <= 1
    ensures r.Err? ==> r.error == DatastoreFailure("Compound primary keys are not supported")
  {
    if |primary| > 1 then Err(DatastoreFailure("Compound primary keys are not supported")) else Ok(())
  }

  /** The rows of the data table by id, and its auto-increment counter. */
  type Rows = map<Id, Data>

  /** Every row has exactly the table's columns, its key column holds its id, and the counter is ahead. */
  ghost predicate RowsOK(key: string, columns: set<string>, rows: Rows, next: Id) {
    && key in columns
    && (forall id :: id in rows ==> rows[id].Keys == columns && rows[id][key] == Int(id))
    && (forall id :: id in rows ==> id < next)
  }

  /** A new row: null in every column. */
  function Blank(columns: set<string>): Data {
    map c | c in columns :: Null
  }

  /** The row after `setFromArray(d)`: the columns `d` names take its values, the others keep theirs. */
  function Apply(row: Data, d: Data, key: string): Data {
    map c | c in row :: if c in d && c != key then d[c] else row[c]
  }

  /**
   * `fetchDataForNode` up to the assignment to the node: a node without id
   * gets the columns of a blank row; a node whose row is missing throws;
   * otherwise its row. The key column is removed in every case.
   */
  function FetchRow(rows: Rows, key: string, columns: set<string>, id: Option<Id>): (r: Result<Data, TreeError>)
    ensures r.Err? <==> id.Some? && id.value !in rows
    ensures r.Err? ==> r.error == DatastoreFailure("Datastore is missing data for the node")
    ensures r.Ok? ==> key !in r.value
  {
    if id.None? then Ok(Blank(columns) - {key})
    else if id.value in rows then Ok(rows[id.value] - {key})
    else Err(DatastoreFailure("Datastore is missing data for the node"))
  }

  /**
   * A node handed to a backend, by value: its id, and its payload when it
   * has been fetched already (`None` while it is still to be fetched).
   */
  datatype NodeValue = NodeValue(id: Option<Id>, loaded: Option<Data>)

  /**
   * Reading `$node->data` on such a node: the loaded payload, or the node's
   * row fetched from the data store at that moment.
   */
  function DataOf(n: NodeValue, rows: Rows, key: string, columns: set<string>): Result<Data, TreeError> {
    if n.loaded.Some? then Ok(n.loaded.value) else FetchRow(rows, key, columns, n.id)
  }

  /** The keys of a list of nodes that all have ids. */
  function NodeKeys(ids: seq<Id>): (k: seq<Option<Id>>)
    ensures |k| == |ids| && forall i :: 0 <= i < |ids| ==> k[i] == Some(ids[i])
  {
    seq(|ids|, i requires 0 <= i < |ids| => Some(ids[i]))
  }

  /** Deleting by those keys deletes exactly the listed ids. */
  lemma NodeKeysDeleted(ids: seq<Id>)
    ensures var k := NodeKeys(ids);
      (set i | 0 <= i < |k| && k[i].Some? :: k[i].value) == set a | a in ids
  {
    var k := NodeKeys(ids);
    forall a | a in ids ensures a in set i | 0 <= i < |k| && k[i].Some? :: k[i].value {
      var i :| 0 <= i < |ids| && ids[i] == a;
      assert k[i] == Some(a);
    }
  }

  /** Fetched data holds every non-key column of the table and the row's values in them. */
  lemma FetchedColumns(key: string, columns: set<string>, rows: Rows, next: Id, id: Option<Id>)
    requires RowsOK(key, columns, rows, next)
    ensures var r := FetchRow(rows, key, columns, id);
      r.Ok? ==> (&& r.value.Keys == columns - {key}
                 && (id.Some? ==> forall c :: c in r.value ==> r.value[c] == rows[id.value][c])
                 && (id.None? ==> forall c :: c in r.value ==> r.value[c] == Null))
  {
  }

  /** The id a saved row gets: its node's id, or the next value of the counter for a node without id. */
  function SaveId(next: Id, id: Option<Id>): Id {
    if id.Some? then id.value else next
  }

  /**
   * `storeDataForNode` after a successful save: the node's row (a blank row
   * keyed by the id when there is none) with `d` applied; the counter moves
   * past the id.
   */
  function Upserted(rows: Rows, next: Id, key: string, columns: set<string>, id: Option<Id>, d: Data): (Rows, Id) {
    var at := SaveId(next, id);
    var row := if at in rows then rows[at] else Blank(columns)[key := Int(at)];
    (rows[at := Apply(row, d, key)], if at < next then next else at + 1)
  }

  /** An upsert keeps the table well formed and touches no other row. */
  lemma UpsertKeepsRows(key: string, columns: set<string>, rows: Rows, next: Id, id: Option<Id>, d: Data)
    requires RowsOK(key, columns, rows, next)
    ensures var u := Upserted(rows, next, key, columns, id, d);
      && RowsOK(key, columns, u.0, u.1)
      && u.0.Keys == rows.Keys + {SaveId(next, id)}
      && (forall b :: b in rows && b != SaveId(next, id) ==> u.0[b] == rows[b])
  {
    var at := SaveId(next, id);
    var row := if at in rows then rows[at] else Blank(columns)[key := Int(at)];
    if at !in rows {
      KeyedBlank(columns, key, at);
    }
    var applied := Apply(row, d, key);
    ApplyKeepsKey(row, d, key);
    RowsOKStore(key, columns, rows, next, at, applied, if at < next then next else at + 1);
  }

  /** Storing a well-formed row at `at` below the new counter keeps the table well formed. */
  lemma RowsOKStore(key: string, columns: set<string>, rows: Rows, next: Id, at: Id, row: Data, next': Id)
    requires RowsOK(key, columns, rows, next)
    requires row.Keys == columns && row[key] == Int(at) && next <= next' && at < next'
    ensures RowsOK(key, columns, rows[at := row], next')
    ensures rows[at := row].Keys == rows.Keys + {at}
    ensures forall b :: b in rows && b != at ==> rows[at := row][b] == rows[b]
  {
    var rows' := rows[at := row];
    forall b | b in rows' ensures rows'[b].Keys == columns && rows'[b][key] == Int(b) && b < next' {
      if b != at {
        assert rows'[b] == rows[b];
      }
    }
  }

  /** A blank row with its key column set holds exactly the table's columns. */
  lemma KeyedBlank(columns: set<string>, key: string, at: Id)
    requires key in columns
    ensures var row := Blank(columns)[key := Int(at)];
      row.Keys == columns && row[key] == Int(at)
  {
  }

  /** Applying data keeps a row's columns and its key value. */
  lemma ApplyKeepsKey(row: Data, d: Data, key: string)
    ensures Apply(row, d, key).Keys == row.Keys
    ensures key in row ==> Apply(row, d, key)[key] == row[key]
  {
  }

  /**
   * Storing then fetching a node gives back the stored fields: every non-key
   * column that `d` names holds `d`'s value, every other one keeps the
   * value the row had (null for a new row).
   */
  lemma {:induction false} FetchAfterStore(key: string, columns: set<string>, rows: Rows, next: Id, id: Option<Id>, d: Data)
    requires RowsOK(key, columns, rows, next)
    ensures var at := SaveId(next, id);
      var r := FetchRow(Upserted(rows, next, key, columns, id, d).0, key, columns, Some(at));
      && r.Ok? && r.value.Keys == columns - {key}
      && (forall c :: c in r.value && c in d ==> r.value[c] == d[c])
      && (forall c :: c in r.value && c !in d ==> r.value[c] == if at in rows then rows[at][c] else Null)
  {
    UpsertKeepsRows(key, columns, rows, next, id, d);
  }

  /** A payload with exactly the table's non-key columns is fetched back unchanged. */
  lemma FullRoundTrip(key: string, columns: set<string>, rows: Rows, next: Id, id: Option<Id>, d: Data)
    requires RowsOK(key, columns, rows, next) && d.Keys == columns - {key}
    ensures FetchRow(Upserted(rows, next, key, columns, id, d).0, key, columns, Some(SaveId(next, id))) == Ok(d)
  {
    FetchAfterStore(key, columns, rows, next, id, d);
    var r := FetchRow(Upserted(rows, next, key, columns, id, d).0, key, columns, Some(SaveId(next, id)));
    assert r.value.Keys == d.Keys;
    assert r.value == d;
  }

  /**
   * A data store over one table: the name of its primary-key column, its
   * columns, its rows and its auto-increment counter.
   */
  class TableStore {
    const key: string
    const columns: set<string>
    var rows: Rows
    var next: Id

    ghost predicate Valid()
      reads this
    {
      RowsOK(key, columns, rows, next)
    }

    /** An empty table with the given key column and columns. */
    constructor (key: string, columns: set<string>)
      requires key in columns
      ensures Valid() && this.key == key && this.columns == columns && rows == map[] && next == 1
    {
      this.key, this.columns := key, columns;
      rows, next := map[], 1;
    }

    /** `deleteDataForNode`: `DELETE ... WHERE key = id`; a null id matches no row. */
    method DeleteDataForNode(id: Option<Id>)
      requires Valid()
      modifies this
      ensures Valid() && next == old(next)
      ensures rows == if id.Some? then old(rows) - {id.value} else old(rows)
    {
      if id.Some? {
        rows := rows - {id.value};
      }
    }

    /** `deleteDataForNodes`: one delete per key of the node list, in list order. */
    method DeleteDataForNodes(ids: seq<Option<Id>>)
      requires Valid()
      modifies this
      ensures Valid() && next == old(next)
      ensures rows == old(rows) - set i | 0 <= i < |ids| && ids[i].Some? :: ids[i].value
    {
      for i := 0 to |ids|
        invariant Valid() && next == old(next)
        invariant rows == old(rows) - set k | 0 <= k < i && ids[k].Some? :: ids[k].value
      {
        DeleteDataForNode(ids[i]);
      }
    }

    /** `deleteDataForAllNodes`: every row is deleted; the counter is not reset. */
    method DeleteDataForAllNodes()
      requires Valid()
      modifies this
      ensures Valid() && rows == map[] && next == old(next)
    {
      rows := map[];
    }

    /**
     * The save at the end of `storeDataForNode`: a failing save (`fault`) is
     * reported as a data store exception and changes nothing; otherwise the
     * row is inserted or updated.
     */
    method Upsert(id: Option<Id>, d: Data, fault: bool) returns (r: Result<(), TreeError>)
      requires Valid()
      modifies this
      ensures Valid()
      ensures fault ==> r == Err(DatastoreFailure("Data could not be saved")) && rows == old(rows) && next == old(next)
      ensures !fault ==> r == Ok(()) && (rows, next) == Upserted(old(rows), old(next), key, columns, id, d)
    {
      if fault {
        return Err(DatastoreFailure("Data could not be saved"));
      }
      UpsertKeepsRows(key, columns, rows, next, id, d);
      rows, next := Upserted(rows, next, key, columns, id, d).0, Upserted(rows, next, key, columns, id, d).1;
      return Ok(());
    }
  }
}
