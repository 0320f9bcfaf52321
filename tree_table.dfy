/**
 * The storage shared by the tree backends: the tree table, whose rows are
 * `id -> (pid, lft, rgt)`, the values held in the data table, and the
 * exceptions of the tree package.
 *
 * Ids are generated by an auto-increment primary key, so every id is a
 * positive integer and no id is ever reused (TRUNCATE resets the counter).
 * A query without ORDER BY returns rows in primary-key order, which is
 * therefore the "store order" of the model.
 */
module TreeTable {
  import opened Wrappers

  /** A node id as generated by the tree table. */
  type Id = x: int | x >= 1 witness 1

  /** A column value of the data table (a PHP scalar). */
  datatype Value = Null | Bool(b: bool) | Int(i: int) | Str(s: string)

  /** The payload of one node: its data-table columns by name. */
  type Data = map<string, Value>

  /** One row of the tree table; the adjacency backend reads only `pid`. */
  datatype Row = Row(pid: Option<Id>, lft: int, rgt: int)

  /** No element occurs twice. */
  predicate NoDups<T(==)>(s: seq<T>) {
    forall i, j :: 0 <= i < j < |s| ==> s[i] != s[j]
  }

  /** The tree table: its rows and its auto-increment counter. */
  datatype Table = Table(rows: map<Id, Row>, next: Id)

  /** Every stored id was handed out by the counter. */
  ghost predicate CounterAhead(tb: Table) {
    forall id :: id in tb.rows ==> id < tb.next
  }

  /**
   * A configured store: an object of the expected class, the name of a class
   * to load, or any other value.
   */
  datatype StoreSpec = Instance | ClassName(name: string) | Other

  /** The exceptions raised by the tree package, by kind. */
  datatype TreeError =
    | PropertyNotFound(name: string)       // Iml_Tree_Exception
    | PropertyReadOnly(name: string)       // Iml_Tree_Exception
    | InvalidPropertyValue(name: string)   // Iml_Tree_Exception
    | NodeNotFound(id: Id)                 // Iml_Tree_Exception
    | InvalidNodeIdType                    // Iml_Tree_Exception
    | NodeIdMustBeNull                     // Iml_Tree_Backend_Db_Exception
    | MissingTreeStore                     // Iml_Tree_Backend_Db_Exception
    | StoreSetupFailed(store: string)      // Iml_Tree_Backend_Db_Exception
    | BackendDbFailure(operation: string)  // Iml_Tree_Backend_Db_Exception after a rollback
    | DatastoreFailure(reason: string)     // Iml_Tree_Datastore_Exception
    | ClassNotFound(name: string)          // ReflectionException for a class that does not exist
    | NotImplemented(operation: string)    // Iml_Tree_Exception for an operation a class does not offer
    | Fatal(reason: string)                // PHP fatal error (method call on a non-object, protected member)

  /** The keys of `m` below `bound`, in ascending (primary-key) order. */
  function KeysBelow<V>(m: map<Id, V>, bound: int): (s: seq<Id>)
    ensures forall i :: 0 <= i < |s| ==> s[i] in m && s[i] < bound
    ensures forall id :: id in m && id < bound ==> id in s
    ensures forall i, j :: 0 <= i < j < |s| ==> s[i] < s[j]
    decreases bound
  {
    if bound <= 1 then []
    else KeysBelow(m, bound - 1) + (if bound - 1 in m then [bound - 1] else [])
  }

  /** The rows of the table in store order. */
  function StoreOrder(tb: Table): (s: seq<Id>)
    ensures CounterAhead(tb) ==> forall id :: id in tb.rows <==> id in s
  {
    KeysBelow(tb.rows, tb.next)
  }

  /** The number a non-empty string of decimal digits spells, or nothing for any other string. */
  function DecimalValue(s: string): (r: Option<nat>)
    ensures r.Some? <==> |s| > 0 && forall i :: 0 <= i < |s| ==> '0' <= s[i] <= '9'
  {
    if s == [] then None
    else
      var d := s[|s| - 1];
      if !('0' <= d <= '9') then None
      else if |s| == 1 then Some((d - '0') as nat)
      else
        var front := s[..|s| - 1];
        var r := DecimalValue(front);
        assert forall i :: 0 <= i < |front| ==> front[i] == s[i];
        if r.None? then None else Some(r.value * 10 + (d - '0') as nat)
  }

  /** The decimal digits of `n`, without leading zeros: PHP's string cast of an integer. */
  function DecimalString(n: nat): (s: string)
    ensures |s| > 0 && forall i :: 0 <= i < |s| ==> '0' <= s[i] <= '9'
    ensures |s| > 1 ==> s[0] != '0'
  {
    var d := ['0' + (n % 10) as char];
    if n < 10 then d else DecimalString(n / 10) + d
  }

  /** Reading back the digits of `n` gives `n`. */
  lemma {:induction false} DecimalRoundTrip(n: nat)
    ensures DecimalValue(DecimalString(n)) == Some(n)
  {
    if n >= 10 {
      DecimalRoundTrip(n / 10);
      var s := DecimalString(n);
      assert s[..|s| - 1] == DecimalString(n / 10);
    }
  }
}
