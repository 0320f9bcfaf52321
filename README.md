# Iml tree library, log dump, Shibboleth adapter and ACL helper — a Dafny model

This project models the core of the `Iml` component library for the Zend
Framework:

- **The hierarchical tree library** (`library/Iml/Tree`). A tree table maps
  each id to `(pid, lft, rgt)`, and a data table maps each id to its field
  map. The two backends store the hierarchy differently:
  - the adjacency-list backend uses parent links;
  - the nested-set backend uses `lft`/`rgt` intervals.

  The library also includes:
  - the abstract tree and its property rules;
  - nodes that load their payload lazily;
  - node lists and their iterator;
  - the table data store;
  - two visitors: a box-drawing text outline and a nested array for Dojo.
- **`Iml_Debug::dumpLogEvents`**: a newest-first dump of collected log events.
- **The Shibboleth authentication adapter**: it builds an identity from the
  `HTTP_SHIB*` server variables, optionally through a key map.
- **The ACL action helper**: it decides whether a request may be dispatched,
  and otherwise throws or redirects it.

## How the source maps to Dafny

Each source file becomes one module:

- `TreeBase`: `Tree/Abstract.php`.
- `DbBackend`: `Tree/Backend/Db/Abstract.php`.
- `Adjacency`: `Tree/Backend/Db/Adjacency.php`.
- `NestedSet`: `Tree/Backend/Db/Nestedset.php`, with its invariant in `NestedSetInvariant`.
- `DataStore`: `Tree/Datastore/Db/Table/Abstract.php`.
- `TreeNode`: `Tree/Node.php`.
- `NodeList`: `Tree/Nodelist.php` and `Tree/Nodelist/Iterator.php`.
- `TreeVisitor`, `Plaintext` and `Dojodata`: the visitors. `TreeVisitor` holds the edge collection both visitors share.
- `LogDump`: `Debug.php`.
- `ShibbolethAuth`: `Auth/Adapter/Shibboleth.php`.
- `AclHelper`: `Controller/Action/Helper/Acl.php`.

Shared types and queries:

- `Wrappers` holds `Option` and `Result`.
- `TreeTable` holds the table types. Ids are positive integers handed out by an auto-increment counter. Store order (a `SELECT` without `ORDER BY`) is ascending primary-key order.
- `TableQueries` holds the SQL selections and the `ORDER BY lft` sort.

How the source's constructs are modelled:

- **Objects whose fields the source updates** are classes: the backends, nodes, node lists, iterators, the data store, the visitors, the adapter and the helper. Their methods are proved against specification functions.
- **Loops** are methods with loop invariants:
  - path and subtree walks;
  - the constructor's configuration loop;
  - the dump's `foreach`;
  - identity building;
  - the indentation loop.
- **Pure lookups** are functions.
- **Database transactions are all-or-nothing.** A failure, given as a parameter `fault`, leaves both tables as they were and is reported as a backend error.

Central proved properties:

- **Nested-set backend.** `addChild`, `delete` and `move` each keep the tree table a well-formed nested set (`NestedSetInvariant.Valid`):
  - every bound in `1 .. 2n` is used exactly once;
  - every node lies strictly inside its parent's interval;
  - siblings are disjoint;
  - `pid` names the innermost enclosing node.
- **Adjacency backend.**
  - `delete` keeps the parent links acyclic.
  - `addChild` and a `move` to a target outside the moved subtree keep them acyclic.
  - Without that guard a move can close a cycle.
  - The depth-first and breadth-first reads list the same nodes.

## Model

| member | source | states |
|---|---|---|
| `TreeTable.StoreOrder` | library/Iml/Tree/Backend/Db/Abstract.php:208-213 | the rows of a table in store order: each stored id once, ascending |
| `TreeTable.DecimalValue` | library/Iml/Tree/Backend/Db/Adjacency.php:304-312 | a string spells a number exactly when it is a non-empty run of decimal digits |
| `TreeTable.DecimalString` | library/Iml/Tree/Node.php:371-374 | PHP's string cast of an id: non-empty decimal digits without a leading zero |
| `TreeTable.DecimalRoundTrip` | library/Iml/Tree/Node.php:371-374 | reading back the digits of an id gives the id |
| `TableQueries.Select` | library/Iml/Tree/Backend/Db/Nestedset.php:87-112 | a `WHERE` selection: it keeps exactly the listed ids whose rows match, as a subsequence of the list (their relative order kept), without introducing duplicates |
| `TableQueries.InsertByLft` | library/Iml/Tree/Backend/Db/Nestedset.php:87-112 | insertion into an `lft`-sorted list adds exactly the one id |
| `TableQueries.InsertKeepsSorted` | library/Iml/Tree/Backend/Db/Nestedset.php:87-112 | insertion keeps the list sorted by `lft` |
| `TableQueries.SortByLft` | library/Iml/Tree/Backend/Db/Nestedset.php:110 | `ORDER BY lft`: sorted by ascending `lft` and a permutation of its input (also the `ORDER BY` of line 67) |
| `TableQueries.PermutationNoDups` | library/Iml/Tree/Backend/Db/Nestedset.php:87-112 | reordering a duplicate-free result keeps it duplicate-free |
| `TableQueries.StoreOrderNoDups` | library/Iml/Tree/Backend/Db/Abstract.php:208-213 | store order lists every id once |
| `DataStore.Init` | library/Iml/Tree/Datastore/Db/Table/Abstract.php:56-61 | `init` refuses a compound primary key and accepts a single-column one |
| `DataStore.FetchRow` | library/Iml/Tree/Datastore/Db/Table/Abstract.php:104-118 | a node without id gets a blank row; a missing row throws; the key column is never in the result |
| `DataStore.FetchedColumns` | library/Iml/Tree/Datastore/Db/Table/Abstract.php:104-118 | fetched data holds exactly the non-key columns, with the row's values |
| `DataStore.UpsertKeepsRows` | library/Iml/Tree/Datastore/Db/Table/Abstract.php:143-158 | an upsert keeps the table well formed and changes no other row |
| `DataStore.FetchAfterStore` | library/Iml/Tree/Datastore/Db/Table/Abstract.php:104-158 | storing then fetching gives back every stored field; the other columns keep their old value, or null for a new row |
| `DataStore.FullRoundTrip` | library/Iml/Tree/Datastore/Db/Table/Abstract.php:104-158 | a payload with exactly the non-key columns is fetched back unchanged |
| `DataStore.TableStore.constructor` | library/Iml/Tree/Datastore/Db/Table/Abstract.php:56-61 | an empty, well-formed table with the given key and columns |
| `DataStore.TableStore.DeleteDataForNode` | library/Iml/Tree/Datastore/Db/Table/Abstract.php:69-72 | exactly the node's row is removed; a null id removes nothing |
| `DataStore.TableStore.DeleteDataForNodes` | library/Iml/Tree/Datastore/Db/Table/Abstract.php:80-85 | exactly the rows keyed in the list are removed |
| `DataStore.TableStore.DeleteDataForAllNodes` | library/Iml/Tree/Datastore/Db/Table/Abstract.php:90-94 | the table is empty afterwards; the counter is not reset |
| `DataStore.TableStore.Upsert` | library/Iml/Tree/Datastore/Db/Table/Abstract.php:146-157 | a failing save changes nothing and reports a data store error; otherwise the table becomes `Upserted` |
| `DbBackend.LastValue` | library/Iml/Tree/Backend/Db/Abstract.php:61-78 | the value a configuration key is left with: its last entry's |
| `DbBackend.StoreEntries` | library/Iml/Tree/Backend/Db/Abstract.php:61-78 | only the `treeStore` and `dataStore` keys are kept, each with its last value |
| `DbBackend.KeepStoreKeys` | library/Iml/Tree/Backend/Db/Abstract.php:63-75 | the configuration loop leaves exactly `StoreEntries` |
| `DbBackend.SetupStore` | library/Iml/Tree/Backend/Db/Abstract.php:99-146 | as written, a store is set up only when given as an instance; a missing tree store throws; a class name fails; any other value, or a missing data store, is a fatal error |
| `DbBackend.UnknownStoreFatalAsWritten` | library/Iml/Tree/Backend/Db/Abstract.php:115-116 | as written, a store of the wrong kind or a missing data store ends in a fatal error |
| `DbBackend.UnknownStoreRefusedIntended` | library/Iml/Tree/Backend/Db/Abstract.php:142-143 | as intended, the same configurations throw the backend exception naming the store |
| `DbBackend.ClassNameStoreRefused` | library/Iml/Tree/Backend/Db/Abstract.php:107-111 | as written, a store given by class name always fails to be set up |
| `DbBackend.SetupStoreIntended` | library/Iml/Tree/Backend/Db/Abstract.php:99-146 | intended set-up: an instance or a loadable class name succeeds, anything else fails |
| `DbBackend.ClassNameStoreIntended` | library/Iml/Tree/Backend/Db/Abstract.php:107-111 | every loadable class name is accepted by the intended set-up and by none as written |
| `DbBackend.Construct` | library/Iml/Tree/Backend/Db/Abstract.php:61-78 | with the intended set-up: construction succeeds iff both stores can be set up; a missing `treeStore` throws, and every other failure throws the backend exception naming the store |
| `DbBackend.CheckNodeId` | library/Iml/Tree/Backend/Db/Abstract.php:167-173 | only a null id is accepted |
| `DbBackend.NodeExists` | library/Iml/Tree/Backend/Db/Abstract.php:181-184 | true iff a row with that id exists |
| `DbBackend.ParentId` | library/Iml/Tree/Backend/Db/Abstract.php:221-228 | an unknown id throws; otherwise the row's `pid` |
| `DbBackend.FetchParent` | library/Iml/Tree/Backend/Db/Abstract.php:194-199 | null for a parentless node, otherwise the parent's id; an unknown id throws |
| `DbBackend.FirstRoot` | library/Iml/Tree/Backend/Db/Abstract.php:208-213 | the first listed id whose row has no parent, if any |
| `DbBackend.RootIsLeast` | library/Iml/Tree/Backend/Db/Abstract.php:208-213 | the first root in store order has the smallest id of all roots |
| `DbBackend.GetRootNode` | library/Iml/Tree/Backend/Db/Abstract.php:208-213 | a root is found iff some row has a null `pid`, and it is the smallest such id; an empty table gives null |
| `Adjacency.ChildrenIn` | library/Iml/Tree/Backend/Db/Adjacency.php:333-338 | the listed ids whose parent is `p`, in list order |
| `Adjacency.FetchChildren` | library/Iml/Tree/Backend/Db/Adjacency.php:52-63 | exactly the rows whose `pid` is `p`, each once, in store order |
| `Adjacency.GetChildCount` | library/Iml/Tree/Backend/Db/Adjacency.php:152-159 | the number of rows whose parent is `p` |
| `Adjacency.HasChildNodes` | library/Iml/Tree/Backend/Db/Adjacency.php:198-201 | true iff the child count is positive |
| `Adjacency.IsChildOf` | library/Iml/Tree/Backend/Db/Adjacency.php:211-214 | true iff the child's `pid` equals the parent id; an unknown child throws |
| `Adjacency.ChildOfListed` | library/Iml/Tree/Backend/Db/Adjacency.php:211-214 | a row is a child of `p` exactly when `fetchChildren(p)` lists it (children as read at lines 52-63) |
| `Adjacency.IsSiblingOf` | library/Iml/Tree/Backend/Db/Adjacency.php:244-249 | both rows exist, their `pid`s are equal and the ids differ; a missing row throws |
| `Adjacency.SiblingsSymmetric` | library/Iml/Tree/Backend/Db/Adjacency.php:244-249 | siblinghood is symmetric and irreflexive, and any two different children of one node are siblings |
| `Adjacency.Climb` | library/Iml/Tree/Backend/Db/Adjacency.php:72-95 | the walk up the `pid` links, linked at every step, ending at a root, a missing row or the fuel bound |
| `Adjacency.NoLoop` | library/Iml/Tree/Backend/Db/Adjacency.php:72-95 | with acyclic links, every walk ends at a root or at a missing row |
| `Adjacency.LineNoDups` | library/Iml/Tree/Backend/Db/Adjacency.php:72-95 | a walk never visits an id twice |
| `Adjacency.OneChildOnLine` | library/Iml/Tree/Backend/Db/Adjacency.php:72-95 | no walk passes through two different children of one node |
| `Adjacency.FetchPath` | library/Iml/Tree/Backend/Db/Adjacency.php:72-95 | the loop returns the reversed walk from the node; an id without row throws |
| `Adjacency.FetchPathShape` | library/Iml/Tree/Backend/Db/Adjacency.php:72-95 | the path is a root first and the node last, each id the parent of the next, none twice |
| `Adjacency.GetPathLength` | library/Iml/Tree/Backend/Db/Adjacency.php:180-190 | the loop counts the `pid` links from the node up to its root |
| `Adjacency.PathLengthCountsAncestors` | library/Iml/Tree/Backend/Db/Adjacency.php:180-190 | the path length equals the number of strict ancestors, 0 for a root |
| `Adjacency.IsDescendantOf` | library/Iml/Tree/Backend/Db/Adjacency.php:224-234 | the loop is true iff `p` is a strict ancestor on the walk; the child itself is never compared |
| `Adjacency.NotOwnDescendant` | library/Iml/Tree/Backend/Db/Adjacency.php:224-234 | a node is never its own descendant |
| `Adjacency.DepthFirst` | library/Iml/Tree/Backend/Db/Adjacency.php:371-379 | the node first, then each child in store order followed by its subtree |
| `Adjacency.DepthFirstMembers` | library/Iml/Tree/Backend/Db/Adjacency.php:105-114 | the depth-first subtree holds exactly the ids whose walk passes through the node |
| `Adjacency.DepthFirstNoDups` | library/Iml/Tree/Backend/Db/Adjacency.php:105-114 | the depth-first subtree lists no id twice |
| `Adjacency.SubtreeIsDescendants` | library/Iml/Tree/Backend/Db/Adjacency.php:105-114 | the subtree lists the node and each of its descendants exactly once |
| `Adjacency.BreadthFirstAllSame` | library/Iml/Tree/Backend/Db/Adjacency.php:349-360 | the breadth-first appends are a permutation of the children's depth-first subtrees |
| `Adjacency.BreadthFirstSame` | library/Iml/Tree/Backend/Db/Adjacency.php:349-360 | the breadth-first read is a reordering of the depth-first subtree without the node (the depth-first read of lines 135-144) |
| `Adjacency.AddChildNodesDepthFirst` | library/Iml/Tree/Backend/Db/Adjacency.php:371-379 | the recursion appends exactly the depth-first subtrees of the children |
| `Adjacency.FetchSubtreeDepthFirst` | library/Iml/Tree/Backend/Db/Adjacency.php:105-125 | the list read is `DepthFirst` of the node |
| `Adjacency.AddNodes` | library/Iml/Tree/Backend/Db/Adjacency.php:352-355 | each listed child is appended in order |
| `Adjacency.AddChildNodesBreadthFirst` | library/Iml/Tree/Backend/Db/Adjacency.php:349-360 | all children are appended first, then the breadth-first appends of each child |
| `Adjacency.FetchSubtreeBreadthFirst` | library/Iml/Tree/Backend/Db/Adjacency.php:135-144 | the node, its children, then the breadth-first appends; the ids are a permutation of the depth-first read |
| `Adjacency.CountChildNodes` | library/Iml/Tree/Backend/Db/Adjacency.php:388-394 | the counter grows by the number of descendants |
| `Adjacency.GetChildCountRecursive` | library/Iml/Tree/Backend/Db/Adjacency.php:167-172 | the number of proper descendants, i.e. subtree size minus one |
| `Adjacency.DescendantInSubtree` | library/Iml/Tree/Backend/Db/Adjacency.php:224-234 | `isDescendantOf(b, a)` iff `b` is in the subtree of `a` and differs from it (the subtree read of lines 105-114) |
| `Adjacency.DeleteKeepsAcyclic` | library/Iml/Tree/Backend/Db/Adjacency.php:304-312 | removing a subtree keeps the links acyclic |
| `Adjacency.RemainingWalk` | library/Iml/Tree/Backend/Db/Adjacency.php:304-312 | after a delete, every remaining node walks up as before |
| `Adjacency.MoveKeepsAcyclic` | library/Iml/Tree/Backend/Db/Adjacency.php:320-325 | re-parenting under null or under a node outside the moved subtree keeps the links acyclic |
| `Adjacency.MoveMakesCycle` | library/Iml/Tree/Backend/Db/Adjacency.php:320-325 | with no cycle check, moving a node under its own child creates a cycle |
| `Adjacency.FetchRowAsWritten` | library/Iml/Tree/Backend/Db/Adjacency.php:290 | as written, the lookup yields the first row in store order, whatever id was asked for (the same lookup recurs at line 322) |
| `Adjacency.MoveAsWrittenMovesFirstRow` | library/Iml/Tree/Backend/Db/Adjacency.php:320-325 | `move(3, 2)` as written re-parents the root under node 2 and closes a cycle; the intended move stays acyclic |
| `Adjacency.AddKeepsAcyclic` | library/Iml/Tree/Backend/Db/Adjacency.php:282-297 | adding a row nobody points to, under a parent other than itself, keeps the links acyclic |
| `Adjacency.DeleteTarget` | library/Iml/Tree/Backend/Db/Adjacency.php:304-312 | a digit string selects the node it spells, an integer selects itself |
| `Adjacency.StringIdsAsIntegers` | library/Iml/Tree/Backend/Db/Adjacency.php:304-312 | a string id and the same id as an integer select the same node |
| `Adjacency.Backend.constructor` | library/Iml/Tree/Backend/Db/Abstract.php:61-78 | an empty tree table over the given data store; well formed when that data table is empty and well formed |
| `Adjacency.Backend.SetRootNode` | library/Iml/Tree/Backend/Db/Adjacency.php:256-274 | both tables are emptied and exactly one parentless row, id 1, is inserted (acyclic); the node's payload, its loaded data or else its row read from the emptied data table, is upserted for id 1 as `Upserted`; a failing read or save is reported and leaves the data table empty |
| `Adjacency.Backend.AddChild` | library/Iml/Tree/Backend/Db/Adjacency.php:282-297 | a node without id gets a new row under the parent, a node with id is re-parented, a node whose row is missing is a fatal error that changes nothing; only that row changes; then its payload is upserted for the row's id as `Upserted`, and a failing read or save is reported with the data table unchanged |
| `Adjacency.Backend.DeleteNodes` | library/Iml/Tree/Backend/Db/Adjacency.php:401-406 | exactly the listed rows are removed |
| `Adjacency.Backend.Delete` | library/Iml/Tree/Backend/Db/Adjacency.php:304-312 | an id that is neither string nor integer (null included) throws; an integer below 1, or a string that is not a run of digits spelling a positive number, selects no row and removes nothing; otherwise exactly the subtree's rows and their data rows are removed, and the links stay acyclic |
| `Adjacency.Backend.Move` | library/Iml/Tree/Backend/Db/Adjacency.php:320-325 | only the node's `pid` changes, to the target |
| `NestedSetInvariant.DenseBounds` | library/Iml/Tree/Backend/Db/Nestedset.php:149-335 | a valid table uses every number of `1 .. 2n` as a bound, each once |
| `NestedSetInvariant.SubtreeSize` | library/Iml/Tree/Backend/Db/Nestedset.php:425-433 | a subtree spanning `[L, R]` has `(R - L + 1) / 2` nodes |
| `NestedSetInvariant.Pruned` | library/Iml/Tree/Backend/Db/Nestedset.php:241-271 | the table after a subtree is deleted and its gap closed |
| `NestedSetInvariant.PrunedValid` | library/Iml/Tree/Backend/Db/Nestedset.php:241-271 | deleting a subtree keeps the table a valid nested set |
| `NestedSetInvariant.WithLeaf` | library/Iml/Tree/Backend/Db/Nestedset.php:184-234 | the table after a leaf is appended as the last child of `p` |
| `NestedSetInvariant.WithLeafValid` | library/Iml/Tree/Backend/Db/Nestedset.php:184-234 | appending a leaf keeps the table a valid nested set |
| `NestedSetInvariant.Moved` | library/Iml/Tree/Backend/Db/Nestedset.php:279-335 | the table after a subtree is cut out, a gap is opened at the target's right bound, and the subtree is renumbered into it |
| `NestedSetInvariant.MovedValid` | library/Iml/Tree/Backend/Db/Nestedset.php:279-335 | moving a subtree under a node outside it keeps the table a valid nested set |
| `NestedSetInvariant.RelabelKeepsShape` | library/Iml/Tree/Backend/Db/Nestedset.php:348-411 | a strictly increasing renumbering of the bounds keeps the shape and the parent links |
| `NestedSetInvariant.GraftValid` | library/Iml/Tree/Backend/Db/Nestedset.php:184-335 | a subtree hung into a gap that completes the numbering gives a valid table |
| `NestedSet.FetchSubtreeDepthFirst` | library/Iml/Tree/Backend/Db/Nestedset.php:87-112 | the rows whose `lft` lies in the node's interval, by ascending `lft`; all of them when the counter is ahead of every id; for an unknown node the interval is `[0, 0]` |
| `NestedSet.FetchSubtreeIsSubtree` | library/Iml/Tree/Backend/Db/Nestedset.php:87-112 | the subtree read lists the node's subtree once each, node first, in pre-order, with `(rgt - lft + 1) / 2` entries |
| `NestedSet.FetchSubtreeUnknown` | library/Iml/Tree/Backend/Db/Nestedset.php:425-433 | the null bounds of an unknown node select no row: its subtree read is empty |
| `NestedSet.FetchPathRootFirst` | library/Iml/Tree/Backend/Db/Nestedset.php:41-48 | the rows whose interval contains the node's `lft`, ascending: root first, as documented |
| `NestedSet.FetchPathRootFirstIsPath` | library/Iml/Tree/Backend/Db/Nestedset.php:41-77 | that list is the node and its ancestors, once each, root first and node last |
| `NestedSet.FetchPath` | library/Iml/Tree/Backend/Db/Nestedset.php:48-77 | as written: the same rows as the documented path, same length |
| `NestedSet.FetchPathNodeFirst` | library/Iml/Tree/Backend/Db/Nestedset.php:62-67 | the `DESC` ordering puts the node first and a root last |
| `NestedSet.FetchPathOrderDiffers` | library/Iml/Tree/Backend/Db/Nestedset.php:62-67 | for a root with one child, the as-written and documented paths are reverses |
| `NestedSet.GetPathLength` | library/Iml/Tree/Backend/Db/Nestedset.php:120-124 | `-1` for an unknown node |
| `NestedSet.PathLengthCountsAncestors` | library/Iml/Tree/Backend/Db/Nestedset.php:120-124 | the path length is the number of ancestors, 0 for a root |
| `NestedSet.IsDescendantOfEncloses` | library/Iml/Tree/Backend/Db/Nestedset.php:134-142 | `isDescendantOf` holds iff the parent's interval strictly contains the child's |
| `NestedSet.MoveSteps` | library/Iml/Tree/Backend/Db/Nestedset.php:279-335 | the statements of `move`, applied in turn, yield `Moved(t, x, y)`, which is valid |
| `NestedSet.MovedPlacement` | library/Iml/Tree/Backend/Db/Nestedset.php:279-335 | the moved subtree keeps its ids and width, starts at the target's post-deletion `rgt`, and hangs under the target, which grows by the width |
| `NestedSet.AddChildScenario` | library/Iml/Tree/Backend/Db/Nestedset.php:184-234 | root `(1,2)`, then `(1,4)` with child `(2,3)`, then `(1,6)` with a second child `(4,5)` |
| `NestedSet.AddedLeaf` | library/Iml/Tree/Backend/Db/Nestedset.php:194-221 | what `addChild` leaves is `WithLeaf`: the child at the parent's old `rgt`, and the parent grows by 2 |
| `NestedSet.DeletedSubtree` | library/Iml/Tree/Backend/Db/Nestedset.php:241-271 | what `delete` leaves is `Pruned` |
| `NestedSet.MutationsFatalAsWritten` | library/Iml/Tree/Backend/Db/Nestedset.php:297-409 | as written, `addChild`, `delete` and `move` each end in a fatal error on the undefined `$db` and keep both tables, so no leaf is ever added and no node removed |
| `NestedSet.MovedUnderUnknown` | library/Iml/Tree/Backend/Db/Nestedset.php:279-335 | the statements of `move` under a target without row leave `MovedToZero` |
| `NestedSet.Backend.constructor` | library/Iml/Tree/Backend/Db/Abstract.php:61-78 | an empty tree table over the given data store; well formed when that data table is empty and well formed |
| `NestedSet.Backend.UpdateForAddition` | library/Iml/Tree/Backend/Db/Nestedset.php:348-379 | every `rgt >= right` and `lft >= right` outside the excluded ids grows by `width`; nothing else changes |
| `NestedSet.Backend.UpdateForDeletion` | library/Iml/Tree/Backend/Db/Nestedset.php:387-411 | every `rgt > right` and `lft > right` drops by `width`; nothing else changes |
| `NestedSet.Backend.FetchSubtreeIds` | library/Iml/Tree/Backend/Db/Nestedset.php:87-112 | the ids of the node's subtree, node first, each once; none for an unknown node |
| `NestedSet.UnknownDeleteBreaksValid` | library/Iml/Tree/Backend/Db/Nestedset.php:254-262 | as written, deleting an id without row selects no row to remove yet lowers every bound by 1, so a non-empty nested set stops being one (its root's left bound becomes 0) |
| `NestedSet.DeleteIntended` | library/Iml/Tree/Backend/Db/Nestedset.php:241-271 | as intended, a known node's subtree is pruned and an unknown id leaves the table as it is; either way a nested set stays a nested set |
| `NestedSet.Backend.DeleteRowsBetween` | library/Iml/Tree/Backend/Db/Nestedset.php:256-259 | exactly the rows with `lft` in `[left, right]` are removed |
| `NestedSet.Backend.UpdateParent` | library/Iml/Tree/Backend/Db/Nestedset.php:292-300 | only the node's `pid` changes; an unknown id changes nothing |
| `NestedSet.Backend.ShiftRows` | library/Iml/Tree/Backend/Db/Nestedset.php:314-326 | exactly the listed rows move by `adjust` |
| `NestedSet.SetRootAsWritten` | library/Iml/Tree/Backend/Db/Nestedset.php:166-171 | as written, the root is saved as a blank row whose two bounds hold the same column default, and that one-row table is not a nested set |
| `NestedSet.Backend.SetRootNode` | library/Iml/Tree/Backend/Db/Nestedset.php:149-176 | as intended, both tables are emptied, then one parentless row `(1, 2)` is inserted and the table is valid; the node's payload, its loaded data or else its row read from the emptied data table, is upserted for id 1 as `Upserted`; a failing read or save is reported and leaves the data table empty |
| `NestedSet.Backend.AddChild` | library/Iml/Tree/Backend/Db/Nestedset.php:184-234 | the table becomes `WithLeaf` (valid) with the new id from the counter; a database failure rolls back and reports a backend error; then the node's payload is upserted for the new id as `Upserted`, and a failing read or save is reported with the data table unchanged |
| `NestedSet.Backend.Delete` | library/Iml/Tree/Backend/Db/Nestedset.php:241-271 | the table becomes `Pruned` (valid) and exactly the subtree's data rows are removed; an unknown id removes nothing and lowers every bound above 0 by 1; a failure rolls both tables back |
| `NestedSet.Backend.Move` | library/Iml/Tree/Backend/Db/Nestedset.php:279-335 | under a known target the table becomes `Moved` (valid); under an unknown target it becomes `MovedToZero`, the subtree shifted to start at 0; an unknown node empties the id list, so the final `UPDATE` fails and everything is rolled back; a failure rolls back |
| `TreeNode.IdString` | library/Iml/Tree/Node.php:371-374 | the id's decimal digits, or `""` for a node without id |
| `TreeNode.Node.constructor` | library/Iml/Tree/Node.php:78-93 | without data the node is unfetched and stored; with data it is fetched and unstored |
| `TreeNode.Node.GetData` | library/Iml/Tree/Node.php:105-116 | an unfetched payload is fetched exactly once and marked fetched; later reads do not refetch; a missing row throws and changes nothing |
| `TreeNode.Node.SetData` | library/Iml/Tree/Node.php:147-154 | the payload is replaced and marked unstored, written through only when it had been fetched, and always ends fetched |
| `TreeNode.Node.Get` | library/Iml/Tree/Node.php:102-128 | own properties are returned as they are; another name reads a payload field, and a missing field throws |
| `TreeNode.Node.Set` | library/Iml/Tree/Node.php:141-173 | `id` and `tree` are read-only; the flags take only booleans; other names update an existing field and mark the node unstored, never adding a key |
| `TreeNode.Node.Save` | library/Iml/Tree/Node.php:376-379 | the payload is read (fetched first if not loaded; a missing row throws and nothing changes) and upserted as `Upserted`; a failing save reports a data store error, leaves the table as it was and the node fetched but not stored |
| `TreeNode.Node.ToString` | library/Iml/Tree/Node.php:371-374 | the id cast to a string |
| `TreeNode.FetchDataForNode` | library/Iml/Tree/Datastore/Db/Table/Abstract.php:104-118 | the node's payload becomes its row without the key column, fetched and not stored; a missing row throws and changes nothing; a node that was already fetched has the row saved back through `Upserted`, and a failing save reports a data store error |
| `TreeNode.StoreDataForNode` | library/Iml/Tree/Datastore/Db/Table/Abstract.php:143-158 | the payload is saved into the row, created if missing; the node is marked stored only after a successful save |
| `NodeList.Added` | library/Iml/Tree/Nodelist.php:204-208 | assignment order: a new key goes last, an existing key keeps its place |
| `NodeList.Removed` | library/Iml/Tree/Nodelist.php:192-196 | unset keeps the relative order of the other keys |
| `NodeList.CountAsWrittenWhenEachCallChanges` | library/Iml/Tree/Nodelist.php:192-208 | the counter as written equals the number of nodes exactly when every call changes the list |
| `NodeList.CountAsWrittenDrifts` | library/Iml/Tree/Nodelist.php:192-208 | adding one node twice counts 2; unsetting an absent id drops a one-node list to a count of 0 |
| `NodeList.IteratorAsWritten` | library/Iml/Tree/Nodelist.php:246-260 | `getIterator` as written depends on the drifting counter, and prefetching fails on the protected field |
| `NodeList.FetchAllAsWritten` | library/Iml/Tree/Nodelist.php:215-229 | as written, a non-zero count reads the tree's nonexistent `store` property, which throws |
| `NodeList.AsWrittenListMisbehaves` | library/Iml/Tree/Nodelist.php:215-260 | after an absent unset, a list with a node gets neither an iterator nor a prefetch |
| `NodeList.Nodelist.constructor` | library/Iml/Tree/Nodelist.php:99-102 | an empty list |
| `NodeList.Nodelist.Count` | library/Iml/Tree/Nodelist.php:237-240 | the number of nodes in the list |
| `NodeList.Nodelist.Get` | library/Iml/Tree/Nodelist.php:111-120 | `nodes` and `size` (equal to the count) are readable; any other name throws |
| `NodeList.Nodelist.Set` | library/Iml/Tree/Nodelist.php:132-141 | every write throws |
| `NodeList.Nodelist.OffsetExists` | library/Iml/Tree/Nodelist.php:151-154 | true iff the key is in the list |
| `NodeList.Nodelist.OffsetGet` | library/Iml/Tree/Nodelist.php:163-166 | the node under the key, or null |
| `NodeList.Nodelist.AddNode` | library/Iml/Tree/Nodelist.php:204-208 | the node is stored under its id, an existing id keeps its position, and the previous size is returned |
| `NodeList.Nodelist.OffsetSet` | library/Iml/Tree/Nodelist.php:180-183 | the offset is ignored: same as `AddNode` |
| `NodeList.Nodelist.OffsetUnset` | library/Iml/Tree/Nodelist.php:192-196 | the key is removed if present, and the previous size is returned |
| `NodeList.Nodelist.FetchDataForNodes` | library/Iml/Tree/Nodelist.php:215-229 | an empty list returns at once; otherwise its tree's data store fetches every node, and on a missing row reports the error with the nodes before it fetched, that node and those after it untouched |
| `NodeList.Nodelist.GetIterator` | library/Iml/Tree/Nodelist.php:246-260 | null for an empty list; otherwise a fresh iterator over a snapshot, with an optional prefetch |
| `NodeList.FetchAll` | library/Iml/Tree/Datastore/Db/Table/Abstract.php:127-134 | in list order, only unfetched nodes are fetched; on an error there is a first node whose row is missing, every node before it is fetched and it and every node after it are untouched |
| `NodeList.Iterator.constructor` | library/Iml/Tree/Nodelist/Iterator.php:107-114 | a snapshot of the keys and nodes; not valid before `rewind` |
| `NodeList.Iterator.Rewind` | library/Iml/Tree/Nodelist/Iterator.php:123-131 | at the first node; valid iff the snapshot is non-empty |
| `NodeList.Iterator.Key` | library/Iml/Tree/Nodelist/Iterator.php:138-141 | the key at the position, null past the end |
| `NodeList.Iterator.Current` | library/Iml/Tree/Nodelist/Iterator.php:150-154 | the node at the position, `false` past the end |
| `NodeList.Iterator.Next` | library/Iml/Tree/Nodelist/Iterator.php:163-169 | one on; not valid once past the last node |
| `NodeList.Iterator.Valid` | library/Iml/Tree/Nodelist/Iterator.php:178-181 | the validity flag |
| `NodeList.Traverse` | library/Iml/Tree/Nodelist/Iterator.php:123-181 | from `rewind`, every key of the snapshot once each, in list order; later list changes are not seen |
| `TreeVisitor.Recorded` | library/Iml/Tree/Visitor/Plaintext.php:97-114 | the first node becomes the root, and each node with a parent is appended to that parent's children |
| `TreeVisitor.FoldAppend` | library/Iml/Tree/Visitor/Plaintext.php:97-114 | visiting `a` then `b` is visiting `a + b` |
| `TreeVisitor.CollectedEdges` | library/Iml/Tree/Visitor/Dojodata.php:90-107 | from empty, the root is the first node visited, and each parent's children are exactly those visited with it, in visit order |
| `TreeVisitor.Collector.constructor` | library/Iml/Tree/Visitor/Plaintext.php:74-88 | nothing recorded |
| `TreeVisitor.Collector.Visit` | library/Iml/Tree/Visitor/Dojodata.php:90-107 | the state becomes `Recorded`; the answer is true |
| `Plaintext.SymbolSet` | library/Iml/Tree/Visitor/Plaintext.php:74-88 | ASCII glyphs for the ASCII charset, UTF-8 box-drawing glyphs otherwise |
| `Plaintext.Indent` | library/Iml/Tree/Visitor/Plaintext.php:139-145 | one two-character cell per level: two spaces below a last child, pipe and space otherwise |
| `Plaintext.DrawnStep` | library/Iml/Tree/Visitor/Plaintext.php:137-155 | one loop turn of `doChildren` leaves exactly the text still to be drawn |
| `Plaintext.Indentation` | library/Iml/Tree/Visitor/Plaintext.php:139-145 | the loop builds `Indent` |
| `Plaintext.DoChildren` | library/Iml/Tree/Visitor/Plaintext.php:129-157 | per recorded child: indentation, tee or (last) corner, line, label and newline, then its children's text |
| `Plaintext.DrawChildren` | library/Iml/Tree/Visitor/Plaintext.php:133-156 | the loop over one node's recorded children draws, child by child, its line and then its subtree's text |
| `Plaintext.RenderNewlines` | library/Iml/Tree/Visitor/Plaintext.php:146-153 | a drawn line ends with its only newline |
| `Plaintext.LinesPerDescendant` | library/Iml/Tree/Visitor/Plaintext.php:129-157 | the text has exactly one line per recorded descendant |
| `Plaintext.ToStringAsWrittenIsBare` | library/Iml/Tree/Visitor/Plaintext.php:165-171 | whatever was visited, the text as written is `(root)` |
| `Plaintext.RootedTextShowsChild` | library/Iml/Tree/Visitor/Plaintext.php:165-171 | a root with one labelled child yields a one-line outline from the root, but a bare `(root)` as written |
| `Plaintext.PlaintextVisitor.constructor` | library/Iml/Tree/Visitor/Plaintext.php:74-88 | glyphs chosen by `SymbolSet`; nothing recorded |
| `Plaintext.PlaintextVisitor.Visit` | library/Iml/Tree/Visitor/Plaintext.php:97-114 | the state becomes `Recorded`; the answer is true |
| `Plaintext.PlaintextVisitor.ToString` | library/Iml/Tree/Visitor/Plaintext.php:165-171 | `(root)` followed by the outline below the recorded root |
| `Dojodata.StructureFields` | library/Iml/Tree/Visitor/Dojodata.php:129-138 | an array holds `id` and `dbId` unless a payload field replaces them, every payload field, and `children` iff the child has recorded children |
| `Dojodata.EntriesArePreorder` | library/Iml/Tree/Visitor/Dojodata.php:122-143 | the entries in pre-order are the recorded descendants with consecutive serials; the counter advances by their number |
| `Dojodata.StructureOf` | library/Iml/Tree/Visitor/Dojodata.php:129-138 | a child's array: payload over `id`/`dbId`, then `children` set or removed |
| `Dojodata.WithPayload` | library/Iml/Tree/Visitor/Dojodata.php:129-134 | the loop puts `id` and `dbId` first, then copies each payload field over them |
| `Dojodata.DoChildren` | library/Iml/Tree/Visitor/Dojodata.php:122-143 | null without recorded children; otherwise one array per child, in order, with serials advancing in pre-order |
| `Dojodata.ChildArray` | library/Iml/Tree/Visitor/Dojodata.php:129-138 | a child's array is its payload over `id` and `dbId`, with `children` set to its children's arrays or removed when it has none |
| `Dojodata.ChildArrays` | library/Iml/Tree/Visitor/Dojodata.php:125-141 | the loop over one node's recorded children yields one array per child, in order, and leaves the counter where the pre-order numbering ends |
| `Dojodata.DojodataVisitor.constructor` | library/Iml/Tree/Visitor/Dojodata.php:61-64 | the options are ignored; nothing recorded |
| `Dojodata.DojodataVisitor.Visit` | library/Iml/Tree/Visitor/Dojodata.php:90-107 | the state becomes `Recorded`; the answer is true |
| `Dojodata.DojodataVisitor.ToArray` | library/Iml/Tree/Visitor/Dojodata.php:156-159 | the arrays below node 1, whatever root was recorded; the counter advances by that subtree's size |
| `Dojodata.DojodataVisitor.ToString` | library/Iml/Tree/Visitor/Dojodata.php:151-154 | always throws |
| `Dojodata.SerialsNeverRepeat` | library/Iml/Tree/Visitor/Dojodata.php:130 | two `toArray` calls never hand out the same serial (the counter of line 54) |
| `TreeBase.Defaults` | library/Iml/Tree/Abstract.php:52-53 | a new tree has the default node and node-list class names |
| `TreeBase.GetProperty` | library/Iml/Tree/Abstract.php:63-73 | one of the four names gives its value (null if unset); any other name throws |
| `TreeBase.IssetProperty` | library/Iml/Tree/Abstract.php:133-143 | true iff a known property holds a value PHP reads as true |
| `TreeBase.SetProperty` | library/Iml/Tree/Abstract.php:90-124 | intended: the stores are read-only, an unknown name throws, and a class name is accepted iff it names the base class or a subclass |
| `TreeBase.SetAsWrittenRefusesSubclasses` | library/Iml/Tree/Abstract.php:99-120 | as written, only the base class name itself is accepted, and every proper subclass is refused |
| `TreeBase.SubclassRefusedAsWritten` | library/Iml/Tree/Abstract.php:104-106 | a concrete subclass of the node class that the setter as written refuses |
| `TreeBase.GetAfterSet` | library/Iml/Tree/Abstract.php:63-124 | after a successful set, get returns the new name and every other property is unchanged |
| `TreeBase.VisitFor` | library/Iml/Tree/Node.php:201-208 | what a visit of a node reads: its parent and, for a child, its payload; an unknown node or a missing payload row throws |
| `TreeBase.VisitsAppend` | library/Iml/Tree/Node.php:201-208 | visiting two lists in turn: the second runs only if the first did not fail |
| `TreeBase.VisitsFollowIds` | library/Iml/Tree/Node.php:201-208 | a walk that does not fail visits every node, in order |
| `TreeBase.AcceptNode` | library/Iml/Tree/Node.php:201-208 | the visitor sees the node, then each child's subtree in `fetchChildren` order (pre-order), up to the first exception |
| `TreeBase.Accept` | library/Iml/Tree/Abstract.php:181-185 | the tree itself is visited first, then the root node's walk; a tree without root is a fatal error |
| `TreeBase.WalkRecordsRoot` | library/Iml/Tree/Abstract.php:181-185 | a whole walk gives a visitor the tree's root, and one child entry for every other node under its parent |
| `TreeBase.TreeObject.constructor` | library/Iml/Tree/Abstract.php:52-53 | default class names, and the stores the backend set up |
| `TreeBase.TreeObject.Get` | library/Iml/Tree/Abstract.php:63-73 | as `GetProperty` on the tree's properties |
| `TreeBase.TreeObject.Isset` | library/Iml/Tree/Abstract.php:133-143 | as `IssetProperty` on the tree's properties |
| `TreeBase.TreeObject.Set` | library/Iml/Tree/Abstract.php:90-124 | as `SetProperty`; a refused value changes nothing |
| `TreeBase.CheckNodeId` | library/Iml/Tree/Abstract.php:151-155 | the base class accepts every id |
| `TreeBase.CreateNode` | library/Iml/Tree/Abstract.php:169-174 | the id check runs first, so a node with an id throws; otherwise a node with the given payload |
| `TreeBase.FetchNodeById` | library/Iml/Tree/Abstract.php:202-211 | an unknown id throws; otherwise a node with that id and its payload not loaded |
| `LogDump.TrimStart` | library/Iml/Debug.php:69-70 | a suffix of the input: only leading blanks removed, and it does not start with one |
| `LogDump.TrimEnd` | library/Iml/Debug.php:69-70 | a prefix of the input: only trailing blanks removed, and it does not end with one |
| `LogDump.Trim` | library/Iml/Debug.php:69-70 | `trim` neither starts nor ends with a blank |
| `LogDump.TrimKeepsMiddle` | library/Iml/Debug.php:69-70 | `trim` keeps one stretch of the input, with only blanks before and after it |
| `LogDump.TrimIdempotent` | library/Iml/Debug.php:69-70 | trimming twice is trimming once |
| `LogDump.Reverse` | library/Iml/Debug.php:80 | `array_reverse`: the same events, last first |
| `LogDump.LinesAppend` | library/Iml/Debug.php:81-86 | the lines of `a + b` are the lines of `a`, then those of `b` |
| `LogDump.NewerLinesFirst` | library/Iml/Debug.php:80-86 | for any split, all newer events' lines come before all older ones' |
| `LogDump.NewestFirst` | library/Iml/Debug.php:80-86 | the most recent event is on the first line |
| `LogDump.DumpText` | library/Iml/Debug.php:63-93 | a non-array argument gives the error "Array expected for argument 1, <type> given"; an array always gives a dump |
| `LogDump.DumpNewestOnTop` | library/Iml/Debug.php:80-87 | newest at the top: when an event is logged after others, the dump opens (after the heading and, outside the command line, `<table>`) with that event's line, followed by the older events' lines |
| `LogDump.FormatAll` | library/Iml/Debug.php:81-86 | the loop formats every event and ends each with `PHP_EOL` |
| `LogDump.DumpLogEvents` | library/Iml/Debug.php:63-93 | the result is `DumpText`, and the echoed text equals it when `echo` is set, otherwise nothing |
| `ShibbolethAuth.OccursShift` | library/Iml/Auth/Adapter/Shibboleth.php:183 | occurrence positions shift by one when the first character is dropped |
| `ShibbolethAuth.StrPos` | library/Iml/Auth/Adapter/Shibboleth.php:183 | `strpos`: the first occurrence, or none exactly when there is no occurrence |
| `ShibbolethAuth.Target` | library/Iml/Auth/Adapter/Shibboleth.php:180-194 | non-attributes are skipped; with a key map, only mapped keys are copied, under their mapped name; without one, under their own name |
| `ShibbolethAuth.AbsorbedContents` | library/Iml/Auth/Adapter/Shibboleth.php:180-194 | a name is present iff it was before or some entry is copied under it; it holds the last such entry's value, or else its old value |
| `ShibbolethAuth.AbsorbedKeeps` | library/Iml/Auth/Adapter/Shibboleth.php:180-194 | copying never removes a name |
| `ShibbolethAuth.Adapter.constructor` | library/Iml/Auth/Adapter/Shibboleth.php:77-86 | the identity field only when given; the key map only when an array is given |
| `ShibbolethAuth.Adapter.HasKeyMap` | library/Iml/Auth/Adapter/Shibboleth.php:169-172 | true iff a key map is in place |
| `ShibbolethAuth.Adapter.SetIdentityField` | library/Iml/Auth/Adapter/Shibboleth.php:128-131 | the identity field becomes the argument, a null argument clearing it (so `authenticate` throws again); nothing else changes |
| `ShibbolethAuth.Adapter.SetKeyMap` | library/Iml/Auth/Adapter/Shibboleth.php:140-151 | an array becomes the key map and `hasKeyMap` becomes true; anything else throws and changes nothing |
| `ShibbolethAuth.Adapter.ClearKeyMap` | library/Iml/Auth/Adapter/Shibboleth.php:158-162 | `hasKeyMap` becomes false |
| `ShibbolethAuth.Adapter.SetupIdentity` | library/Iml/Auth/Adapter/Shibboleth.php:180-194 | the loop leaves the identity `Absorbed` |
| `ShibbolethAuth.Adapter.Authenticate` | library/Iml/Auth/Adapter/Shibboleth.php:95-121 | no identity field throws; a field absent from the environment fails with `FAILURE_IDENTITY_NOT_FOUND` and builds nothing; otherwise success with the built identity |
| `ShibbolethAuth.IdentityAccumulates` | library/Iml/Auth/Adapter/Shibboleth.php:180-194 | a second authentication keeps every name the first one put into the identity |
| `AclHelper.WithResource` | library/Iml/Controller/Action/Helper/Acl.php:179-188 | the resource is added only when missing |
| `AclHelper.WithResourceIdempotent` | library/Iml/Controller/Action/Helper/Acl.php:179-188 | adding the controller's resource twice is adding it once |
| `AclHelper.ArrayOption` | library/Iml/Controller/Action/Helper/Acl.php:162-168 | an option is taken only when set and an array |
| `AclHelper.SettingsAsWritten` | library/Iml/Controller/Action/Helper/Acl.php:146-172 | as written: `acl` is required, `throwIfDenied` defaults to true, a `noacl` array overrides the login target, and `noacl` stays null |
| `AclHelper.ConfiguredSettings` | library/Iml/Controller/Action/Helper/Acl.php:146-172 | intended: each redirect target comes from its own option |
| `AclHelper.SettingsDiffer` | library/Iml/Controller/Action/Helper/Acl.php:162-168 | the two constructors differ exactly where a `noacl` array goes |
| `AclHelper.ErrorPageBecomesLoginTarget` | library/Iml/Controller/Action/Helper/Acl.php:166-168 | with only an error page, the constructor as written files it as the login target |
| `AclHelper.RoleOf` | library/Iml/Controller/Action/Helper/Acl.php:237-248 | the `role` of an array or object identity, `guest` without identity; any other identity throws |
| `AclHelper.Decide` | library/Iml/Controller/Action/Helper/Acl.php:249-263 | allowed proceeds; denied throws when configured so; otherwise the error page for a signed-in user if set, else the login page if set, else an error |
| `AclHelper.SignedInPrefersErrorPage` | library/Iml/Controller/Action/Helper/Acl.php:253-263 | a signed-in user goes to the error page whenever one is configured |
| `AclHelper.NeverErrorPageAsWritten` | library/Iml/Controller/Action/Helper/Acl.php:166-168 | with the constructor as written, no one is ever sent to the error page (the redirect at lines 253-263) |
| `AclHelper.Entry` | library/Iml/Controller/Action/Helper/Acl.php:254-261 | a missing target entry reads as null |
| `AclHelper.Request.constructor` | library/Iml/Controller/Action/Helper/Acl.php:264 | a request with the given names, not yet redirected |
| `AclHelper.Request.RedirectAsWritten` | library/Iml/Controller/Action/Helper/Acl.php:264-269 | as written, the names are rewritten, `oldRequest` is the request itself, and it is marked undispatched |
| `AclHelper.Request.Redirect` | library/Iml/Controller/Action/Helper/Acl.php:264-269 | intended: as above, but `oldRequest` is a copy of the request before the rewrite |
| `AclHelper.OldRequestLostAsWritten` | library/Iml/Controller/Action/Helper/Acl.php:264-269 | after the redirect as written, `oldRequest` no longer names the requested action |
| `AclHelper.OldRequestKept` | library/Iml/Controller/Action/Helper/Acl.php:264-269 | after the intended redirect, `oldRequest` still names the requested action |
| `AclHelper.Helper.constructor` | library/Iml/Controller/Action/Helper/Acl.php:146-172 | the helper holds the configured settings |
| `AclHelper.Helper.Init` | library/Iml/Controller/Action/Helper/Acl.php:179-188 | the request is remembered, and the controller becomes a resource if it was not one |
| `AclHelper.Helper.Allow` | library/Iml/Controller/Action/Helper/Acl.php:201-206 | one allow rule is added, for the current controller |
| `AclHelper.Helper.Deny` | library/Iml/Controller/Action/Helper/Acl.php:219-224 | one deny rule is added, for the current controller |
| `AclHelper.Helper.PreDispatch` | library/Iml/Controller/Action/Helper/Acl.php:235-272 | the outcome is `Decide` for the chosen role; only a redirect changes the request: it is rewritten to the target and marked undispatched, its parameters gain exactly `oldRequest`, a new request naming the module, controller and action asked for, and every other parameter keeps its value |
| `AclHelper.NewHelper` | library/Iml/Controller/Action/Helper/Acl.php:146-160 | a missing or non-ACL `acl` option throws; otherwise a helper with the constructor's settings |

## Left out

- **Zend Framework machinery.** SQL text and quoting, `TRUNCATE`, `Zend_Db` transactions, class loading and reflection are modelled by their effect on maps, not reproduced:
  - tables are maps;
  - a transaction is all-or-nothing;
  - a loadable class name is a set member.
- **Exceptions.** Exception classes are not distinguished beyond the error constructors of each module, and several messages are abbreviated.
- **PHP type juggling** is modelled only in the cases listed below; the comparisons of ids with database strings are covered by their own lines further down:
  - string versus integer ids in the type test of the adjacency `delete` (`Adjacency.php:306`) and the digit strings it accepts;
  - truthiness of property and option values;
  - `null == []`;
  - a null array key.
- **`$db` and `$hits`.** `Nestedset.php` uses these variables without defining them, so as written `addChild`, `delete` and `move` end in a fatal error (see Findings). `NestedSet.Backend` models the evident intent: `$db` is the tree store's adapter and `$hits` the backend itself. Ids are integers here, and `quote` returns an integer unchanged, so the target id written into `pid` at line 297 is the id itself. A string id would be wrapped in quotes; string ids are not modelled in the nested-set backend.
- **Node objects.** `setRootNode` and `addChild` take the node by reference and replace it with a new node object for the saved row. The model takes the node's id and loaded payload as a value (`DataStore.NodeValue`) and returns the saved row's id in place of the new object.
- `NestedSet.Backend.SetRootNode` and `NestedSet.Backend.AddChild` insert their row with the columns in `$data` (`Nestedset.php:170` and `:220`), as the code evidently intends. `Zend_Db_Table::fetchNew` takes no arguments, so as written the row is blank. In `setRootNode` that call is reached and the root is saved without bounds (see Findings, `NestedSet.SetRootAsWritten`); in `addChild` the fatal error at line 359 comes first.
- `DataStore.TableStore.Upsert`: a payload holding the key column is not modelled. `setFromArray` would write that column too, re-keying an existing row or inserting a new one under that key. `Apply` leaves the key column alone. Payloads read by `fetchDataForNode` never hold the key, because line 116 removes it.
- `NestedSet.Backend.AddChild` requires the parent to have a row. For an unknown parent the source reads null bounds: every bound shifts up by 2, and a row with a null `lft` and `rgt = 1` is inserted. A null bound cannot be represented in this model, and the table would stop being a nested set.
- `Adjacency.FetchPath`, `Adjacency.GetPathLength` and `Adjacency.IsDescendantOf` require acyclic parent links. On a cyclic table the source's loop up the `pid` links never ends.
- `Adjacency.FetchSubtreeDepthFirst`, `Adjacency.FetchSubtreeBreadthFirst` and `Adjacency.GetChildCountRecursive` require acyclic parent links. On a cyclic table the source's recursion never ends.
- `Adjacency.DeleteTarget` takes a string that is not a plain run of decimal digits (`'12abc'`, `' 12'`, `'+12'`, `'1e1'`) to match no row. The source hands any string to the SQL of `fetchSubtree` and `_deleteNodes`, where the database's own string-to-number coercion decides. MySQL, for one, reads `'12abc'` as 12 and would delete node 12's subtree. That coercion is not modelled.
- `Adjacency.IsChildOf`, `Adjacency.IsDescendantOf`, `Adjacency.IsSiblingOf`, `NestedSet.IsDescendantOfEncloses` and `Dojodata.StructureOf` compare and store ids as integers. In the source, the `pid` and `id` values read back from the database are strings (`_getParentId` is documented to return a string, `Abstract.php:219`). `===` compares them with the caller's ids at `Adjacency.php:213, 229, 232, 248` and `Nestedset.php:138`, and `Dojodata` stores the database string as `dbId`. The model's ids stand for the canonical decimal strings the database returns, and callers pass ids in that same form. A caller passing integers, for which `===` against a string is always false (`isChildOf(2, 1)` answers false), is not modelled.
- `Adjacency.Backend.Delete` requires acyclic parent links, because it reads the subtree first.
- **`move` preconditions.** The nested-set `move` requires the target to lie outside the moved subtree, because no backend checks this. `Adjacency.MoveMakesCycle` shows what happens otherwise.
- **`Tree::copy` and `_copyChildren`** (`Tree/Abstract.php:380-416`) are not modelled. They cannot run: the static method uses `$this` and calls a method that does not exist.
- **`Iml_Tree_Node` delegation methods.** `addChild`, `fetchChildren`, `fetchPath`, `fetchParent`, the subtree reads, the counts, `getPathLength` and the ancestry predicates (`Node.php:216-363`) are not modelled separately. Each forwards to the backend operation of the same name, which is modelled.
- **Replacement classes.** The node and node-list class names a tree holds are stored and checked, but the objects built are always the base classes.
- **The log formatter, `strip_tags` and `Zend_Debug::getSapi`** are parameters of `LogDump`. `PHP_EOL` is `"\n"`.
- **`Zend_Acl::isAllowed`** is a parameter of `AclHelper.Helper.PreDispatch`. The ACL itself is recorded only as its resources and rules.
- **`Zend_Auth` identity storage** is not modelled. The identity is a parameter.
- **Server variables.** `$_SERVER` is an explicit list of string pairs. The adapter's own tests expect `Shib-` keys and a prefix getter that does not exist; the model follows the code, which filters on `HTTP_SHIB`.
- **Dojo array key order.** Dojo arrays are maps, so PHP's key order within one array is not modelled.
- **The static `$_serial` counter** is threaded through `Dojodata` as an explicit parameter and result.
- `Plaintext.DoChildren`, `Dojodata.DoChildren`: the recursion over recorded edges takes a `fuel` depth bound, because recorded edges alone do not rule out a cycle. Deeper levels are not drawn.
- `TreeBase.AcceptNode` requires acyclic parent links. On a cyclic table the recursion in `Node.php:201-208` would not end.

## Findings

| source | as written | input that shows it | evidently intended | confidence | as-written member | corrected member |
|---|---|---|---|---|---|---|
| library/Iml/Tree/Backend/Db/Adjacency.php:322 | in `move` (and in `addChild` at line 290), `fetchRow(array('id' => $x))` has no `?` placeholder, so the condition is the bare column `id` and the first row in store order is returned | `move(3, 2)` on root 1 with children 2 and 3 re-parents row 1 under 2, closing a cycle | look up the row with id `$x`, as `Nestedset.php:430` does | high (not executed) | `Adjacency.MoveAsWrittenMovesFirstRow` | `Adjacency.Backend.Move` |
| library/Iml/Tree/Backend/Db/Abstract.php:107-111 | a store given by class name is instantiated and assigned to the tree's property, whose setter (lines 134-138) always throws for `treeStore` and `dataStore` | configuration `treeStore => 'My_Table'` with a loadable class | the loaded instance becomes the store | medium (not executed) | `DbBackend.ClassNameStoreRefused` | `DbBackend.ClassNameStoreIntended` |
| library/Iml/Tree/Backend/Db/Abstract.php:115-116 | the `default:` branch of `_setupTreeStore` (and of `_setupDataStore`, lines 142-143) builds its message from `$e`, which is undefined there, so the call on it is a fatal error | configuration `treeStore => 42`, or no `dataStore` entry | throw the backend exception saying the store cannot be set up | high (not executed) | `DbBackend.UnknownStoreFatalAsWritten` | `DbBackend.UnknownStoreRefusedIntended` |
| library/Iml/Tree/Abstract.php:104-106 | `'Iml_Tree_Node' !== $value \|\| isSubclassOf(...)` (and the same test at lines 115-117) refuses every class except the base class itself | `nodeClassName = 'My_Node'` with `My_Node extends Iml_Tree_Node` | accept the base class and its subclasses | high (not executed) | `TreeBase.SubclassRefusedAsWritten` | `TreeBase.SetProperty` |
| library/Iml/Tree/Backend/Db/Nestedset.php:359 | `addChild` calls `_updateNestedValuesForSubtreeAddition`, which calls `quoteInto` on the undefined `$db`: a fatal error, not a `Zend_Db_Exception`, so the transaction is neither committed nor rolled back | `addChild(1, $node)` on a table with root 1: the script stops and the table keeps its one row | use the tree store's adapter, as line 356 of the same method does for the `SET` part | high (not executed) | `NestedSet.MutationsFatalAsWritten` | `NestedSet.Backend.AddChild` |
| library/Iml/Tree/Backend/Db/Nestedset.php:398 | `delete` calls `_updateNestedValuesForSubtreeDeletion`, which calls `quoteInto` on the undefined `$db`, after the subtree's rows were deleted inside the open transaction | `delete(2)` on root 1 with child 2: the script stops and the deletion is never committed | use the tree store's adapter | high (not executed) | `NestedSet.MutationsFatalAsWritten` | `NestedSet.Backend.Delete` |
| library/Iml/Tree/Backend/Db/Nestedset.php:297 | `move` calls `quote` on the undefined `$db` (and line 322 reads the undefined `$hits`) | `move(3, 2)` on root 1 with children 2 and 3: the script stops and nothing moves | use the tree store's adapter, and `$this` for `$hits` | high (not executed) | `NestedSet.MutationsFatalAsWritten` | `NestedSet.Backend.Move` |
| library/Iml/Tree/Backend/Db/Nestedset.php:254-262 | with `$db` read as the tree store's adapter, as in the rows above: for an id without row `_fetchNodeInformation` yields null bounds, each quoted as `''`, the `BETWEEN` deletes nothing, and the shift `rgt > ''` / `lft > ''` with width 1 lowers every bound by 1 | `delete(99)` on a table whose only row is root 1 with bounds (1, 2): the root's bounds become (0, 1) | nothing changes for an unknown id | high (not executed) | `NestedSet.UnknownDeleteBreaksValid` | `NestedSet.DeleteIntended` |
| library/Iml/Tree/Backend/Db/Nestedset.php:170 | `setRootNode` passes `$data` (`lft = 1`, `rgt = 2`) to `fetchNew`, which takes no arguments, so the saved root is a blank row | `setRootNode($node)` on any table: the root row is saved without `lft = 1` and `rgt = 2`, and every later nested-set read or update starts from a table that is not a nested set | create the row with `createRow($data)` | high (not executed) | `NestedSet.SetRootAsWritten` | `NestedSet.Backend.SetRootNode` |
| library/Iml/Tree/Backend/Db/Nestedset.php:62-67 | `ORDER BY parent.lft DESC` lists the node first and the root last | root 1 with child 2: `fetchPath(2)` gives `[2, 1]` | root first, as the doc comment at lines 41-43 says and the adjacency backend returns | medium (not executed) | `NestedSet.FetchPathOrderDiffers` | `NestedSet.FetchPathRootFirstIsPath` |
| library/Iml/Tree/Nodelist.php:192-208 | `_count` grows on every `addNode` and shrinks on every `offsetUnset`, even when the list does not change | unset an absent id, then add one node: the count is 0 with one node in the list | the count equals the number of nodes | high (not executed) | `NodeList.CountAsWrittenDrifts` | `NodeList.Nodelist.Count` |
| library/Iml/Tree/Nodelist.php:228 | `$tree->store` is not a tree property, so `__get` throws | `fetchDataForNodes()` on any non-empty list | ask the tree's `dataStore` | high (not executed) | `NodeList.AsWrittenListMisbehaves` | `NodeList.Nodelist.FetchDataForNodes` |
| library/Iml/Tree/Nodelist/Iterator.php:111 | the prefetch reads the tree's protected `_properties` from outside | `getIterator(true)` on any non-empty list | fetch through the tree's `dataStore` property | high (not executed) | `NodeList.IteratorAsWritten` | `NodeList.Nodelist.GetIterator` |
| library/Iml/Tree/Visitor/Plaintext.php:165-171 | `__toString` draws the children of `null`, which nothing records | a tree with root 1 and one child labelled `a` prints `(root)` only | draw from the recorded root | high (not executed) | `Plaintext.RootedTextShowsChild` | `Plaintext.PlaintextVisitor.ToString` |
| library/Iml/Controller/Action/Helper/Acl.php:166-168 | the `noacl` option is stored into `_noauth` | options with only `noacl` set: a signed-in but denied user is sent to that page as the login target, and `_noacl` stays null | store it into `_noacl` | high (not executed) | `AclHelper.ErrorPageBecomesLoginTarget` | `AclHelper.ConfiguredSettings` |
| library/Iml/Controller/Action/Helper/Acl.php:264-268 | `$request = $oldRequest = ...` makes `oldRequest` the same object as the rewritten request | a denied request for action `edit` redirected to `form`: `oldRequest` says `form` | keep a copy of the original request | high (not executed) | `AclHelper.OldRequestLostAsWritten` | `AclHelper.OldRequestKept` |
