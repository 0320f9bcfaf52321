/**
 * The nested set backend: its reads as interval queries, and its mutators
 * as a class over the tree table and the data table.
 *
 * The mutators issue the UPDATE/DELETE statements of the backend one by
 * one; their postconditions say that the statements of `addChild`,
 * `delete` and `move`, run in the order the backend runs them, yield the
 * tables `WithLeaf`, `Pruned` and `Moved` of the invariant module, and
 * therefore keep the table a well-formed nested set.
 */
module NestedSet {
  import opened Wrappers
  import opened TreeTable
  import opened TableQueries
  import opened NestedSetInvariant
  import DataStore

  // ---------------------------------------------------------------------
  // Reads

  /**
   * `_fetchNodeInformation`: the bounds of the node's row and its width
   * `rgt - lft + 1`. For an unknown id the row is null, so both bounds are
   * null, which PHP arithmetic and the SQL they are quoted into (as `''`)
   * both read as 0, and the width is 1.
   */
  function NodeInformation(t: Rows, x: Id): (int, int, int) {
    if x in t then (t[x].lft, t[x].rgt, t[x].rgt - t[x].lft + 1) else (0, 0, 1)
  }

  /** `fetchSubtreeDepthFirst`: the rows whose `lft` lies in the node's interval, by ascending `lft`. */
  function FetchSubtreeDepthFirst(tb: Table, x: Id): (s: seq<Id>)
    ensures AllIn(tb.rows, s) && LftSorted(tb.rows, s)
    ensures forall a :: a in s ==> NodeInformation(tb.rows, x).0 <= tb.rows[a].lft <= NodeInformation(tb.rows, x).1
    ensures CounterAhead(tb) ==>
      forall a :: a in tb.rows && NodeInformation(tb.rows, x).0 <= tb.rows[a].lft <= NodeInformation(tb.rows, x).1 ==> a in s
  {
    StoreOrderNoDups(tb);
    var info := NodeInformation(tb.rows, x);
    SortByLft(tb.rows, Select(tb.rows, StoreOrder(tb), LftBetween(info.0, info.1)))
  }

  /** In a well-formed table every `lft` is at least 1, so the subtree read of an unknown id is empty. */
  lemma FetchSubtreeUnknown(tb: Table, x: Id)
    requires Valid(tb.rows) && x !in tb.rows
    ensures FetchSubtreeDepthFirst(tb, x) == []
  {
    NoneAtZero(tb.rows);
  }

  /** In a well-formed table, `lft` order is strict. */
  lemma StrictlySorted(t: Rows, s: seq<Id>)
    requires Shape(t) && AllIn(t, s) && LftSorted(t, s) && NoDups(s)
    ensures forall i, j :: 0 <= i < j < |s| ==> t[s[i]].lft < t[s[j]].lft
  {
    forall i, j | 0 <= i < j < |s| ensures t[s[i]].lft < t[s[j]].lft {
      ShapePair(t, s[i], s[j]);
    }
  }

  /** A duplicate-free, `lft`-sorted list of exactly the rows inside the interval of `x`. */
  lemma SubtreeList(t: Rows, s: seq<Id>, x: Id)
    requires Shape(t) && Dense(t) && x in t && AllIn(t, s) && LftSorted(t, s) && NoDups(s)
    requires forall a :: a in s <==> a in t && t[x].lft <= t[a].lft <= t[x].rgt
    ensures Elems(s) == Within(t, t[x].lft, t[x].rgt)
    ensures |s| > 0 && s[0] == x && 2 * |s| == t[x].rgt - t[x].lft + 1
    ensures forall i, j :: 0 <= i < j < |s| ==> t[s[i]].lft < t[s[j]].lft
  {
    StrictlySorted(t, s);
    assert Elems(s) == Within(t, t[x].lft, t[x].rgt);
    assert x in s;
    NoDupsCard(s);
    SubtreeSize(t, x);
  }

  /**
   * The subtree read lists the node's subtree exactly once each, node first,
   * in strictly ascending `lft` (pre-order), and has `(rgt - lft + 1) / 2` entries.
   */
  lemma FetchSubtreeIsSubtree(tb: Table, x: Id)
    requires Valid(tb.rows) && CounterAhead(tb) && x in tb.rows
    ensures var s, t := FetchSubtreeDepthFirst(tb, x), tb.rows;
      && Elems(s) == Within(t, t[x].lft, t[x].rgt)
      && NoDups(s) && |s| > 0 && s[0] == x
      && (forall i, j :: 0 <= i < j < |s| ==> t[s[i]].lft < t[s[j]].lft)
      && 2 * |s| == t[x].rgt - t[x].lft + 1
  {
    var t := tb.rows;
    var s := FetchSubtreeDepthFirst(tb, x);
    StoreOrderNoDups(tb);
    PermutationNoDups(Select(t, StoreOrder(tb), LftBetween(t[x].lft, t[x].rgt)), s);
    SubtreeList(t, s, x);
  }

  /** The rows whose interval strictly contains that of `x`: its ancestors. */
  ghost function Ancestors(t: Rows, x: Id): set<Id>
    requires x in t
  {
    set a | a in t && Encloses(t[a], t[x])
  }

  /** The rows whose interval contains the node's `lft`, by ascending `lft`; none for an unknown id. */
  function FetchPathRootFirst(tb: Table, x: Id): (s: seq<Id>)
    ensures AllIn(tb.rows, s) && LftSorted(tb.rows, s)
    ensures x !in tb.rows ==> s == []
  {
    if x !in tb.rows then []
    else
      StoreOrderNoDups(tb);
      SortByLft(tb.rows, Select(tb.rows, StoreOrder(tb), ContainsLft(tb.rows[x].lft)))
  }

  /** `fetchPath` as written: the same rows, ordered by descending `lft`. */
  function FetchPath(tb: Table, x: Id): (s: seq<Id>)
    ensures |s| == |FetchPathRootFirst(tb, x)|
    ensures forall a :: a in s <==> a in FetchPathRootFirst(tb, x)
  {
    var p := FetchPathRootFirst(tb, x);
    var s := Reversed(p);
    assert forall a :: a in s ==> a in p;
    assert forall i :: 0 <= i < |p| ==> p[i] == s[|p| - 1 - i];
    s
  }

  /** Some row of a non-empty well-formed table is a root numbered `[1, 2n]`. */
  lemma RootExists(t: Rows, x: Id) returns (r: Id)
    requires Valid(t) && x in t
    ensures r in t && t[r].pid == None && t[r].lft == 1
  {
    DenseBounds(t);
    assert 1 in Interval(1, 2 * |t|);
    r := BoundOwner(t, 1);
    assert t[r].lft == 1;
    assert ParentOK(t, r);
  }

  /** A duplicate-free, `lft`-sorted list of exactly the rows whose interval holds the `lft` of `x`. */
  lemma PathList(t: Rows, s: seq<Id>, x: Id)
    requires Valid(t) && x in t && AllIn(t, s) && LftSorted(t, s) && NoDups(s)
    requires forall a :: a in s <==> a in t && t[a].lft <= t[x].lft <= t[a].rgt
    ensures Elems(s) == Ancestors(t, x) + {x}
    ensures |s| > 0 && s[|s| - 1] == x && t[s[0]].pid == None
    ensures forall i, j :: 0 <= i < j < |s| ==> t[s[i]].lft < t[s[j]].lft
  {
    StrictlySorted(t, s);
    forall a | a in t ensures a in s <==> a in Ancestors(t, x) || a == x {
      if a != x { ShapePair(t, a, x); }
    }
    assert Elems(s) == Ancestors(t, x) + {x};
    var r := RootExists(t, x);
    assert r in s by {
      if r != x { ShapePair(t, r, x); }
    }
    var k := |s| - 1;
    var i :| 0 <= i < |s| && s[i] == x;
    assert s[k] == x;
    var j :| 0 <= j < |s| && s[j] == r;
    assert t[s[0]].lft >= 1;
  }

  /**
   * The path read lists `x` and its ancestors exactly once each, in strictly
   * ascending `lft`: a root first and `x` last.
   */
  lemma FetchPathRootFirstIsPath(tb: Table, x: Id)
    requires Valid(tb.rows) && CounterAhead(tb) && x in tb.rows
    ensures var s, t := FetchPathRootFirst(tb, x), tb.rows;
      && Elems(s) == Ancestors(t, x) + {x}
      && NoDups(s) && |s| > 0 && s[|s| - 1] == x && t[s[0]].pid == None
      && (forall i, j :: 0 <= i < j < |s| ==> t[s[i]].lft < t[s[j]].lft)
  {
    var t := tb.rows;
    var s := FetchPathRootFirst(tb, x);
    StoreOrderNoDups(tb);
    PermutationNoDups(Select(t, StoreOrder(tb), ContainsLft(t[x].lft)), s);
    PathList(t, s, x);
  }

  /** The as-written path read puts `x` first and a root last. */
  lemma FetchPathNodeFirst(tb: Table, x: Id)
    requires Valid(tb.rows) && CounterAhead(tb) && x in tb.rows
    ensures var s := FetchPath(tb, x); |s| > 0 && s[0] == x && tb.rows[s[|s| - 1]].pid == None
  {
    FetchPathRootFirstIsPath(tb, x);
  }

  /** A root `1` with child `2`: the two path reads of `2` disagree on the order. */
  lemma FetchPathOrderDiffers()
    ensures var tb := Table(map[1 := Row(None, 1, 4), 2 := Row(Some(1), 2, 3)], 3);
      FetchPath(tb, 2) == [2, 1] && FetchPathRootFirst(tb, 2) == [1, 2]
  {
    var tb := Table(map[1 := Row(None, 1, 4), 2 := Row(Some(1), 2, 3)], 3);
    assert StoreOrder(tb) == [1, 2];
  }

  /** `getPathLength`: the number of path entries less one. */
  function GetPathLength(tb: Table, x: Id): (n: int)
    ensures x !in tb.rows ==> n == -1
  {
    |FetchPathRootFirst(tb, x)| - 1
  }

  /** A list of `x` and its ancestors, each once, is one longer than the ancestor set. */
  lemma AncestorCount(t: Rows, s: seq<Id>, x: Id)
    requires x in t && NoDups(s) && Elems(s) == Ancestors(t, x) + {x}
    ensures |s| - 1 == |Ancestors(t, x)|
  {
    NoDupsCard(s);
    assert x !in Ancestors(t, x);
  }

  /** The path length of a node is its number of ancestors, 0 for a root. */
  lemma PathLengthCountsAncestors(tb: Table, x: Id)
    requires Valid(tb.rows) && CounterAhead(tb) && x in tb.rows
    ensures GetPathLength(tb, x) == |Ancestors(tb.rows, x)|
    ensures tb.rows[x].pid == None ==> GetPathLength(tb, x) == 0
  {
    var t := tb.rows;
    FetchPathRootFirstIsPath(tb, x);
    AncestorCount(t, FetchPathRootFirst(tb, x), x);
    if t[x].pid == None {
      assert ParentOK(t, x);
      assert Ancestors(t, x) == {};
    }
  }

  /** `isDescendantOf`: the other node is on the path and is not the node itself. */
  function IsDescendantOf(tb: Table, child: Id, parent: Id): bool {
    parent in FetchPathRootFirst(tb, child) && child != parent
  }

  /** A node is a descendant of exactly the nodes whose interval strictly contains its own. */
  lemma IsDescendantOfEncloses(tb: Table, child: Id, parent: Id)
    requires Valid(tb.rows) && CounterAhead(tb)
    ensures IsDescendantOf(tb, child, parent)
        <==> child in tb.rows && parent in tb.rows && Encloses(tb.rows[parent], tb.rows[child])
  {
    var t := tb.rows;
    if child in t {
      var s := FetchPathRootFirst(tb, child);
      FetchPathRootFirstIsPath(tb, child);
      assert parent in s <==> parent in Elems(s);
      assert parent in s <==> parent in Ancestors(t, child) || parent == child;
      assert parent in Ancestors(t, child) <==> parent in t && Encloses(t[parent], t[child]);
    }
  }

  // ---------------------------------------------------------------------
  // How the statements of `move` combine
  //
  // `t` is the table before `move(x, y)`, `t1` after the re-parenting, `t2`
  // after the gap of width `W` right of `R` is closed, `t3` after the gap is
  // opened at the target's right bound `g` for the rows outside the subtree
  // `S`, and `m` after the rows of `S` are shifted by `d`.

  /**
   * Assembling the moved table row by row: rows of the subtree `I` come from the
   * shifted block `J`, the others from the renumbered rest `O`.
   */
  lemma AssembleMoved(S: set<Id>, x: Id, y: Id, m: Rows, u: Rows, I: Rows, O: Rows, J: Rows, g: int, d: int, W: int)
    requires y in u && x in I && I.Keys == S && u.Keys !! S && m.Keys == u.Keys + S
    requires g == u[y].rgt && d == g - I[x].lft && W == I[x].rgt - I[x].lft + 1
    requires O == Relabel(u, Open(g, W)) && J == Relabel(I, Shift(d))
    requires forall a :: a in S ==> m[a] == (if a == x then J[a].(pid := Some(y)) else J[a])
    requires forall a :: a in m && a !in S ==> m[a] == O[a]
    ensures m == MovedInto(u, I, y, x)
  {
    MovedIntoIsGraft(u, I, y, x, g, I[x].lft, W);
    var r := Grafted(O, J, y, x);
    assert forall a :: a in m ==> m[a] == r[a];
  }

  /** The row of `t` re-parented under `y` if it is `x`. */
  function Reparented(t: Rows, x: Id, y: Id, a: Id): Row
    requires a in t
  {
    if a == x then t[a].(pid := Some(y)) else t[a]
  }

  /** A row of the moved subtree keeps its bounds through the closing and the opening of gaps, then is shifted. */
  lemma MoveRowInside(t: Rows, x: Id, y: Id, a: Id, R: int, W: int, d: int, t2: Rows, t3: Rows, m: Rows, J: Rows)
    requires a in t && a in t2 && a in t3 && a in m && a in J && t[a].lft <= R && t[a].rgt <= R
    requires t2[a] == Row(Reparented(t, x, y, a).pid, Renumber(Close(R, W), t[a].lft), Renumber(Close(R, W), t[a].rgt))
    requires t3[a] == t2[a]
    requires m[a] == t3[a].(lft := t3[a].lft + d, rgt := t3[a].rgt + d)
    requires J[a] == Row(t[a].pid, Renumber(Shift(d), t[a].lft), Renumber(Shift(d), t[a].rgt))
    ensures m[a] == (if a == x then J[a].(pid := Some(y)) else J[a])
  {
  }

  /** A row outside the moved subtree has the gap closed and the new gap opened, and is not shifted. */
  lemma MoveRowOutside(t: Rows, a: Id, R: int, W: int, g: int, t2: Rows, t3: Rows, m: Rows, u: Rows, O: Rows)
    requires a in t && a in t2 && a in t3 && a in m && a in u && a in O
    requires t2[a] == Row(t[a].pid, Renumber(Close(R, W), t[a].lft), Renumber(Close(R, W), t[a].rgt))
    requires t3[a] == Row(t2[a].pid, Renumber(Open(g, W), t2[a].lft), Renumber(Open(g, W), t2[a].rgt))
    requires m[a] == t3[a]
    requires u[a] == Row(t[a].pid, Renumber(Close(R, W), t[a].lft), Renumber(Close(R, W), t[a].rgt))
    requires O[a] == Row(u[a].pid, Renumber(Open(g, W), u[a].lft), Renumber(Open(g, W), u[a].rgt))
    ensures m[a] == O[a]
  {
  }

  /** Re-parenting `x` under `y` and closing the gap, row by row. */
  lemma ReparentedRows(t: Rows, x: Id, y: Id, R: int, W: int, t2: Rows)
    requires x in t && t2 == Relabel(t[x := t[x].(pid := Some(y))], Close(R, W))
    ensures t2.Keys == t.Keys
    ensures forall a :: a in t ==>
      t2[a] == Row(Reparented(t, x, y, a).pid, Renumber(Close(R, W), t[a].lft), Renumber(Close(R, W), t[a].rgt))
  {
    forall a | a in t
      ensures t2[a] == Row(Reparented(t, x, y, a).pid, Renumber(Close(R, W), t[a].lft), Renumber(Close(R, W), t[a].rgt))
    {
      assert t[x := t[x].(pid := Some(y))][a] == Reparented(t, x, y, a);
    }
  }

  /** Row by row, the statements of `move` agree with the renumbered rest `O` and the shifted block `J`. */
  lemma MoveRowsAgree(t: Rows, x: Id, y: Id, S: set<Id>, R: int, W: int, g: int, d: int,
                      t2: Rows, t3: Rows, m: Rows, u: Rows, O: Rows, J: Rows)
    requires x in t && x in S && S <= t.Keys
    requires forall a :: a in S ==> t[a].lft <= R && t[a].rgt <= R
    requires t2.Keys == t.Keys
    requires forall a :: a in t ==>
      t2[a] == Row(Reparented(t, x, y, a).pid, Renumber(Close(R, W), t[a].lft), Renumber(Close(R, W), t[a].rgt))
    requires OpenedExcept(t2, t3, g, W, S)
    requires ShiftedBy(t3, m, S, d)
    requires u == Relabel(t - S, Close(R, W)) && O == Relabel(u, Open(g, W)) && J == Relabel(Restrict(t, S), Shift(d))
    ensures forall a :: a in S ==> m[a] == (if a == x then J[a].(pid := Some(y)) else J[a])
    ensures forall a :: a in t && a !in S ==> m[a] == O[a]
  {
    forall a | a in t
      ensures a in S ==> m[a] == (if a == x then J[a].(pid := Some(y)) else J[a])
      ensures a !in S ==> m[a] == O[a]
    {
      if a in S {
        MoveRowInside(t, x, y, a, R, W, d, t2, t3, m, J);
      } else {
        MoveRowOutside(t, a, R, W, g, t2, t3, m, u, O);
      }
    }
  }

  /**
   * `u` is `t` with every row outside `excluded` opened by `width` at `right`
   * (both bounds), the excluded rows unchanged.
   */
  ghost predicate OpenedExcept(t: Rows, u: Rows, right: int, width: int, excluded: set<Id>) {
    && u.Keys == t.Keys
    && (forall a :: a in u && a !in excluded ==>
          u[a] == Row(t[a].pid, Renumber(Open(right, width), t[a].lft), Renumber(Open(right, width), t[a].rgt)))
    && (forall a :: a in u && a in excluded ==> u[a] == t[a])
  }

  /** `u` is `t` with exactly the rows in `ids` moved by `adjust` (both bounds). */
  ghost predicate ShiftedBy(t: Rows, u: Rows, ids: set<Id>, adjust: int) {
    && u.Keys == t.Keys
    && (forall a :: a in u && a in ids ==> u[a] == t[a].(lft := t[a].lft + adjust, rgt := t[a].rgt + adjust))
    && (forall a :: a in u && a !in ids ==> u[a] == t[a])
  }

  /**
   * `m` is `t` after `move` of `x` under a target `y` with no row: the
   * subtree of `x` is shifted down by `x`'s `lft`, the root of it gets
   * parent `y`, every other row has the subtree's gap closed and then a gap
   * of the same width opened at 0.
   */
  ghost predicate MovedToZero(t: Rows, x: Id, y: Id, m: Rows)
    requires x in t
  {
    var L, R := t[x].lft, t[x].rgt;
    var W, S := R - L + 1, Within(t, L, R);
    && m.Keys == t.Keys
    && (forall a :: a in m && a in S ==>
          m[a] == Row(if a == x then Some(y) else t[a].pid, t[a].lft - L, t[a].rgt - L))
    && (forall a :: a in m && a !in S ==>
          m[a] == Row(t[a].pid, Renumber(Open(0, W), Renumber(Close(R, W), t[a].lft)), Renumber(Open(0, W), Renumber(Close(R, W), t[a].rgt))))
  }

  /** The pruned table written with the subtree `S` and the bounds `L`, `R` of its root. */
  lemma PrunedAt(t: Rows, x: Id, S: set<Id>, L: int, R: int, W: int)
    requires x in t && L == t[x].lft && R == t[x].rgt && W == R - L + 1 && S == Within(t, L, R)
    ensures Pruned(t, x) == Relabel(t - S, Close(R, W))
  {
    PrunedDef(t, x);
  }

  /** The moved table from its rows, once the re-parented, gap-closed table `t2` is known row by row. */
  lemma MovedFromRows(t: Rows, x: Id, y: Id, S: set<Id>, L: int, R: int, W: int, g: int, d: int,
                      t2: Rows, t3: Rows, m: Rows)
    requires Ordered(t) && x in t && y in t && L == t[x].lft && R == t[x].rgt && W == R - L + 1 && d == g - L
    requires S == Within(t, L, R) && x in S && y !in S
    requires forall a :: a in S ==> t[a].lft <= R && t[a].rgt <= R
    requires t2.Keys == t.Keys && g == t2[y].rgt
    requires forall a :: a in t ==>
      t2[a] == Row(Reparented(t, x, y, a).pid, Renumber(Close(R, W), t[a].lft), Renumber(Close(R, W), t[a].rgt))
    requires OpenedExcept(t2, t3, g, W, S)
    requires ShiftedBy(t3, m, S, d)
    ensures y in Pruned(t, x) && m == Moved(t, x, y)
  {
    var u, I := Pruned(t, x), Subtree(t, x);
    PrunedAt(t, x, S, L, R, W);
    var O := Relabel(u, Open(g, W));
    var J := Relabel(I, Shift(d));
    MoveRowsAgree(t, x, y, S, R, W, g, d, t2, t3, m, u, O, J);
    assert u[y] == t2[y];
    AssembleMoved(S, x, y, m, u, I, O, J, g, d, W);
  }

  /**
   * The statements of `move`, each as its own table, turn a valid table into
   * `Moved(t, x, y)`, which is valid again.
   */
  lemma MoveSteps(t: Rows, x: Id, y: Id, S: set<Id>, t1: Rows, L: int, R: int, W: int, t2: Rows,
                  g: int, t3: Rows, d: int, m: Rows)
    requires Valid(t) && x in t && y in t && S == Within(t, t[x].lft, t[x].rgt) && y !in S
    requires t1 == t[x := t[x].(pid := Some(y))]
    requires L == t1[x].lft && R == t1[x].rgt && W == R - L + 1
    requires t2 == Relabel(t1, Close(R, W)) && y in t2 && g == t2[y].rgt
    requires OpenedExcept(t2, t3, g, W, S)
    requires d == g - L
    requires ShiftedBy(t3, m, S, d)
    ensures y in Pruned(t, x) && m == Moved(t, x, y) && Valid(m)
  {
    assert L == t[x].lft && R == t[x].rgt;
    SubtreeRows(t, x);
    ReparentedRows(t, x, y, R, W, t2);
    MovedFromRows(t, x, y, S, L, R, W, g, d, t2, t3, m);
    MovedValid(t, x, y);
  }

  /**
   * The statements of `move` with a target that has no row: the subtree is
   * shifted by minus its `lft`, every other row is closed and then opened at 0.
   */
  lemma MovedUnderUnknown(t: Rows, x: Id, y: Id, S: set<Id>, t1: Rows, L: int, R: int, W: int, t2: Rows,
                          t3: Rows, d: int, m: Rows)
    requires Valid(t) && x in t && y !in t && S == Within(t, t[x].lft, t[x].rgt)
    requires t1 == t[x := t[x].(pid := Some(y))]
    requires L == t1[x].lft && R == t1[x].rgt && W == R - L + 1
    requires t2 == Relabel(t1, Close(R, W)) && y !in t2
    requires OpenedExcept(t2, t3, 0, W, S)
    requires d == 0 - L
    requires ShiftedBy(t3, m, S, d)
    ensures MovedToZero(t, x, y, m)
  {
    SubtreeRows(t, x);
    forall a | a in m && a in S
      ensures m[a] == Row(if a == x then Some(y) else t[a].pid, t[a].lft - L, t[a].rgt - L)
    {
      assert t2[a] == t1[a];
    }
    forall a | a in m && a !in S
      ensures m[a] == Row(t[a].pid, Renumber(Open(0, W), Renumber(Close(R, W), t[a].lft)), Renumber(Open(0, W), Renumber(Close(R, W), t[a].rgt)))
    {
      assert a != x by { assert x in S; }
    }
  }

  /** The rows of a grafted block are exactly the rows whose `lft` falls in the gap opened for it. */
  lemma GraftedWithin(u: Rows, I: Rows, y: Id, x: Id, g: int, L: int, R: int, W: int, m: Rows)
    requires x in I && W == R - L + 1 && (forall a :: a in u ==> a !in I)
    requires forall a :: a in I ==> L <= I[a].lft <= R
    requires m == Grafted(Relabel(u, Open(g, W)), Relabel(I, Shift(g - L)), y, x)
    ensures Within(m, g, g + W - 1) == I.Keys
  {
    var O, J := Relabel(u, Open(g, W)), Relabel(I, Shift(g - L));
    forall a | a in m ensures a in Within(m, g, g + W - 1) <==> a in I {
      GraftedRow(O, J, y, x, a);
      if a in I {
        assert m[a].lft == J[a].lft == I[a].lft + (g - L);
      } else {
        assert m[a] == O[a];
      }
    }
  }

  /** Where a block grafted into a gap opened at the right bound of `y` lands. */
  lemma GraftPlacement(u: Rows, I: Rows, y: Id, x: Id, g: int, L: int, R: int, W: int, m: Rows)
    requires y in u && u[y].lft < u[y].rgt && g == u[y].rgt && (forall a :: a in u ==> a !in I)
    requires x in I && L == I[x].lft && R == I[x].rgt && W == R - L + 1
    requires forall a :: a in I ==> L <= I[a].lft <= R
    requires m == Grafted(Relabel(u, Open(g, W)), Relabel(I, Shift(g - L)), y, x)
    ensures m[x].lft == g && m[x].rgt - m[x].lft + 1 == W && m[x].pid == Some(y)
    ensures m[y].rgt == g + W && m[y].lft == u[y].lft
    ensures Within(m, m[x].lft, m[x].rgt) == I.Keys
  {
    var O, J := Relabel(u, Open(g, W)), Relabel(I, Shift(g - L));
    GraftedRow(O, J, y, x, y);
    GraftedRow(O, J, y, x, x);
    GraftedWithin(u, I, y, x, g, L, R, W, m);
  }

  /**
   * Where `move` puts the subtree: its top starts at the target's right bound
   * after the gap is closed, keeps its width and hangs under the target, the
   * target grows by that width, and the same ids form the subtree afterwards.
   */
  lemma MovedPlacement(t: Rows, x: Id, y: Id)
    requires Valid(t) && x in t && y in t && y !in Within(t, t[x].lft, t[x].rgt)
    ensures y in Pruned(t, x)
    ensures var u, m, W := Pruned(t, x), Moved(t, x, y), t[x].rgt - t[x].lft + 1;
      && m[x].lft == u[y].rgt && m[x].rgt - m[x].lft + 1 == W && m[x].pid == Some(y)
      && m[y].rgt == u[y].rgt + W && m[y].lft == u[y].lft
      && Within(m, m[x].lft, m[x].rgt) == Within(t, t[x].lft, t[x].rgt)
  {
    PrunedValid(t, x);
    var u, I := Pruned(t, x), Subtree(t, x);
    var L, R := t[x].lft, t[x].rgt;
    var W := R - L + 1;
    var g := u[y].rgt;
    assert L < R && u[y].lft < g by { assert Ordered(t) && Ordered(u); }
    CutApart(t, x);
    MovedIntoIsGraft(u, I, y, x, g, L, W);
    GraftPlacement(u, I, y, x, g, L, R, W, Moved(t, x, y));
  }

  /** The pruned table and the cut-out subtree share no id; the subtree holds the rows within the node's bounds. */
  lemma CutApart(t: Rows, x: Id)
    requires x in t && t[x].lft < t[x].rgt
    ensures var u, I := Pruned(t, x), Subtree(t, x);
      && I.Keys == Within(t, t[x].lft, t[x].rgt) && x in I && I[x] == t[x]
      && (forall a :: a in u ==> a !in I)
      && (forall a :: a in I ==> t[x].lft <= I[a].lft <= t[x].rgt)
  {
  }

  /**
   * Two `addChild` calls under a fresh root: the root `(1, 2)` becomes
   * `(1, 4)` with the child at `(2, 3)`, then `(1, 6)` with the second
   * child at `(4, 5)`.
   */
  lemma AddChildScenario()
    ensures var root := map[1 := Row(None, 1, 2)];
      && WithLeaf(root, 1, 2) == map[1 := Row(None, 1, 4), 2 := Row(Some(1), 2, 3)]
      && WithLeaf(WithLeaf(root, 1, 2), 1, 3)
         == map[1 := Row(None, 1, 6), 2 := Row(Some(1), 2, 3), 3 := Row(Some(1), 4, 5)]
  {
    var root: Rows := map[1 := Row(None, 1, 2)];
    var one: Rows := map[1 := Row(None, 1, 4), 2 := Row(Some(1), 2, 3)];
    assert WithLeaf(root, 1, 2) == one;
    assert WithLeaf(one, 1, 3) == map[1 := Row(None, 1, 6), 2 := Row(Some(1), 2, 3), 3 := Row(Some(1), 4, 5)];
  }

  /** Bounds renumbered row by row give the relabelled table. */
  lemma RelabelRows(u: Rows, t: Rows, f: Renumbering)
    requires u.Keys == t.Keys
    requires forall a :: a in u ==> u[a] == Row(t[a].pid, Renumber(f, t[a].lft), Renumber(f, t[a].rgt))
    ensures u == Relabel(t, f)
  {
  }

  /** The table `addChild` leaves: two slots opened at the parent's `rgt`, then the new row. */
  lemma AddedLeaf(t: Rows, p: Id, c: Id, right: int, shifted: Rows, newLeft: int, newRight: int, r: Rows,
                  dt: DataStore.Rows)
    requires TablesOK(t, c, dt) && p in t && right == t[p].rgt && newLeft == right && newRight == right + 1
    requires shifted.Keys == t.Keys
    requires forall a :: a in shifted ==>
      shifted[a] == Row(t[a].pid, Renumber(Open(right, 2), t[a].lft), Renumber(Open(right, 2), t[a].rgt))
    requires r == shifted[c := Row(Some(p), newLeft, newRight)]
    ensures r == WithLeaf(t, p, c) && r.Keys == t.Keys + {c} && TablesOK(r, c + 1, dt)
  {
    RelabelRows(shifted, t, Open(right, 2));
    WithLeafValid(t, p, c);
  }

  /**
   * `delete` as written, for an id without row: the null bounds select no
   * row, and closing a gap of width 1 at 0 moves every bound down by 1. On
   * a non-empty table the bound 1 is some node's `lft`, which becomes 0, so
   * the table is no longer a nested set.
   */
  lemma UnknownDeleteBreaksValid(t: Rows, x: Id)
    requires Valid(t) && t != map[] && x !in t
    ensures !Valid(Relabel(t, Close(0, 1)))
  {
    var a :| a in t;
    assert |t| >= 1 by { assert a in t.Keys; }
    DenseBounds(t);
    assert 1 in Bounds(t);
    var b := BoundOwner(t, 1);
    assert t[b].lft == 1;
    var r := Relabel(t, Close(0, 1));
    assert r[b].lft == 0;
  }

  /**
   * `delete` as evidently intended: the subtree of a known node is pruned,
   * and an id without row deletes nothing. Either way the table stays a
   * nested set.
   */
  function DeleteIntended(t: Rows, x: Id): (r: Rows)
    ensures Valid(t) ==> Valid(r)
    ensures x !in t ==> r == t
    ensures x in t ==> r.Keys == t.Keys - Within(t, t[x].lft, t[x].rgt)
  {
    if x in t then PrunedIfValid(t, x); Pruned(t, x) else t
  }

  /** `PrunedValid` for a table not known to be valid. */
  lemma PrunedIfValid(t: Rows, x: Id)
    requires x in t
    ensures Valid(t) ==> Valid(Pruned(t, x))
  {
    if Valid(t) {
      PrunedValid(t, x);
    }
  }

  /** The table `delete` leaves: the rows inside the node's interval dropped, the gap closed. */
  lemma DeletedSubtree(t: Rows, x: Id, left: int, right: int, width: int, d: Rows, r: Rows, next: Id, dt: DataStore.Rows)
    requires TablesOK(t, next, dt) && x in t && left == t[x].lft && right == t[x].rgt && width == right - left + 1
    requires d == t - Within(t, left, right) && r == Relabel(d, Close(right, width))
    ensures r == Pruned(t, x) && r.Keys == t.Keys - Within(t, t[x].lft, t[x].rgt)
    ensures TablesOK(r, next, dt - Within(t, t[x].lft, t[x].rgt))
  {
    PrunedValid(t, x);
  }

  /**
   * The statements of `delete` in order: for a known node they leave the
   * pruned table and drop the subtree's data; for an unknown one they
   * remove nothing and close a gap of width 1 at 0.
   */
  lemma DeleteOutcome(t: Rows, x: Id, next: Id, dt: DataStore.Rows, nodeList: seq<Id>,
                      left: int, right: int, width: int, remaining: Rows, r: Rows, dr: DataStore.Rows)
    requires TablesOK(t, next, dt)
    requires x in t ==> Elems(nodeList) == Within(t, t[x].lft, t[x].rgt)
    requires x !in t ==> nodeList == []
    requires (left, right, width) == NodeInformation(t, x)
    requires remaining == t - Within(t, left, right) && r == Relabel(remaining, Close(right, width))
    requires dr == dt - Elems(nodeList)
    ensures x in t ==> r == Pruned(t, x) && dr == dt - Within(t, t[x].lft, t[x].rgt) && TablesOK(r, next, dr)
    ensures x !in t ==> r == Relabel(t, Close(0, 1)) && dr == dt
  {
    if x in t {
      DeletedSubtree(t, x, left, right, width, remaining, r, next, dt);
    } else {
      NoneAtZero(t);
      assert remaining == t;
      assert Elems(nodeList) == {};
    }
  }

  /**
   * The statements of `move` in order, for a known node: under a known
   * target they leave the moved table, under an unknown one (whose right
   * bound reads as 0) the subtree is shifted down to start at 0.
   */
  lemma MoveOutcome(t: Rows, next: Id, dt: DataStore.Rows, x: Id, y: Id, S: set<Id>, t1: Rows,
                    L: int, R: int, W: int, t2: Rows, g: int, t3: Rows, d: int, m: Rows)
    requires TablesOK(t, next, dt) && x in t && (y in t ==> y !in Within(t, t[x].lft, t[x].rgt))
    requires S == Within(t, t[x].lft, t[x].rgt)
    requires t1 == t[x := t[x].(pid := Some(y))]
    requires (L, R, W) == NodeInformation(t1, x)
    requires t2 == Relabel(t1, Close(R, W)) && g == NodeInformation(t2, y).1
    requires OpenedExcept(t2, t3, g, W, S)
    requires d == g - L
    requires ShiftedBy(t3, m, S, d)
    ensures y in t ==> y in Pruned(t, x) && m == Moved(t, x, y) && TablesOK(m, next, dt)
    ensures y !in t ==> MovedToZero(t, x, y, m)
  {
    if y in t {
      MoveSteps(t, x, y, S, t1, L, R, W, t2, g, t3, d, m);
      MovedTablesOK(t, x, y, m, next, dt);
    } else {
      assert y !in t2;
      MovedUnderUnknown(t, x, y, S, t1, L, R, W, t2, t3, d, m);
    }
  }

  /** A move keeps the tables well formed: the rows stay valid and keep their ids. */
  lemma MovedTablesOK(t: Rows, x: Id, y: Id, m: Rows, next: Id, dt: DataStore.Rows)
    requires TablesOK(t, next, dt) && x in t && y in t && y !in Within(t, t[x].lft, t[x].rgt)
    requires m == Moved(t, x, y)
    ensures y in Pruned(t, x) && TablesOK(m, next, dt)
  {
    MovedValid(t, x, y);
  }

  // ---------------------------------------------------------------------
  // The backend object

  /** The tree table is a well-formed nested set, the counter is ahead of every id, and data belongs to nodes. */
  ghost predicate TablesOK(rows: Rows, next: Id, data: DataStore.Rows) {
    && Valid(rows)
    && CounterAhead(Table(rows, next))
    && data.Keys <= rows.Keys
  }

  /** In a well-formed table every `lft` is at least 1, so no row has its `lft` in `[0, 0]`. */
  lemma NoneAtZero(t: Rows)
    requires Valid(t)
    ensures Within(t, 0, 0) == {}
  {
    forall a | a in t ensures t[a].lft >= 1 {
    }
  }

  /**
   * `setRootNode` as written: `fetchNew($data)` takes no arguments, so the
   * saved root is a blank row whose `lft` and `rgt` both hold the column
   * default `blank`. Whatever integer that default is, the one-row table
   * is not a nested set (a null default, not representable here, fails
   * the same way).
   */
  function SetRootAsWritten(blank: int): (r: Rows)
    ensures r.Keys == {1} && r[1].pid == None
    ensures !Valid(r)
  {
    var r := map[1 := Row(None, blank, blank)];
    assert !Ordered(r) by { assert r[1].lft == r[1].rgt; }
    r
  }

  /** The table `setRootNode` leaves, a single root `(1, 2)`, is a well-formed nested set. */
  lemma RootOnly()
    ensures Valid(map[1 := Row(None, 1, 2)]) && CounterAhead(Table(map[1 := Row(None, 1, 2)], 2))
  {
    var t := map[1 := Row(None, 1, 2)];
    assert Shape(t) && Linked(t) && Dense(t) && RootsCover(t, 2 * |t|);
  }

  /** The transactions of the backend that change the tree table. */
  datatype Mutation = AddChildOf(parent: Id) | DeleteNode(x: Id) | MoveNode(x: Id, target: Id)

  /**
   * `addChild`, `delete` and `move` as written, on the tree table and the
   * data table. Each reaches a call on the undefined variable `$db` before
   * its commit: `addChild` through `_updateNestedValuesForSubtreeAddition`
   * (line 359), `delete` through `_updateNestedValuesForSubtreeDeletion`
   * (line 398), `move` at once (line 297). The fatal error is not a
   * `Zend_Db_Exception`, so neither the rollback nor the commit runs, and
   * the open transaction is discarded with the connection: nothing it did
   * is kept.
   */
  function MutateAsWritten(m: Mutation, t: Rows, dt: DataStore.Rows): (Result<(), TreeError>, Rows, DataStore.Rows) {
    var call := if m.MoveNode? then "quote" else "quoteInto";
    (Err(Fatal("Call to a member function " + call + "() on a non-object")), t, dt)
  }

  /**
   * As written, no mutation of a well-formed table takes effect: each ends
   * in a fatal error with both tables as they were, whereas the corrected
   * `Backend.AddChild` leaves `WithLeaf` (one id more) and `Backend.Delete`
   * leaves `Pruned` (the node gone).
   */
  lemma MutationsFatalAsWritten(m: Mutation, t: Rows, next: Id, dt: DataStore.Rows)
    requires TablesOK(t, next, dt)
    ensures var (r, t', dt') := MutateAsWritten(m, t, dt);
      && r.Err? && r.error.Fatal? && t' == t && dt' == dt
      && (m.AddChildOf? && m.parent in t ==> t' != WithLeaf(t, m.parent, next))
      && (m.DeleteNode? && m.x in t ==> t' != Pruned(t, m.x))
  {
  }

  /**
   * A nested set backend: the rows and the auto-increment counter of its
   * tree table, and its data store.
   */
  class Backend {
    var rows: Rows
    var next: Id
    const dataStore: DataStore.TableStore

    /** The backend's tables satisfy `TablesOK` and the data store is well formed. */
    ghost predicate Wellformed()
      reads this, dataStore
    {
      TablesOK(rows, next, dataStore.rows) && dataStore.Valid()
    }

    /** A backend over an empty tree table and the given data store. */
    constructor (store: DataStore.TableStore)
      ensures rows == map[] && next == 1 && dataStore == store
      ensures store.Valid() && store.rows == map[] ==> Wellformed()
    {
      rows, next, dataStore := map[], 1, store;
    }

    /**
     * `_updateNestedValuesForSubtreeAddition`: `rgt = rgt + width WHERE rgt >= right`,
     * then `lft = lft + width WHERE lft >= right`, both skipping the ids in `excluded`.
     */
    method UpdateForAddition(right: int, width: int, excluded: set<Id>)
      modifies this
      ensures OpenedExcept(old(rows), rows, right, width, excluded) && next == old(next)
    {
      rows := map a | a in rows :: if rows[a].rgt >= right && a !in excluded then rows[a].(rgt := rows[a].rgt + width) else rows[a];
      rows := map a | a in rows :: if rows[a].lft >= right && a !in excluded then rows[a].(lft := rows[a].lft + width) else rows[a];
    }

    /**
     * `_updateNestedValuesForSubtreeDeletion`: `rgt = rgt - width WHERE rgt > right`,
     * then `lft = lft - width WHERE lft > right`.
     */
    method UpdateForDeletion(right: int, width: int)
      modifies this
      ensures rows == Relabel(old(rows), Close(right, width)) && next == old(next)
    {
      ghost var t := rows;
      rows := map a | a in rows :: if rows[a].rgt > right then rows[a].(rgt := rows[a].rgt - width) else rows[a];
      rows := map a | a in rows :: if rows[a].lft > right then rows[a].(lft := rows[a].lft - width) else rows[a];
      RelabelRows(rows, t, Close(right, width));
    }

    /** The subtree read as the backend issues it: the ids of the node's subtree, node first; none for an unknown id. */
    method FetchSubtreeIds(x: Id) returns (s: seq<Id>)
      requires Valid(rows) && CounterAhead(Table(rows, next))
      ensures NoDups(s)
      ensures x in rows ==> |s| > 0 && s[0] == x && Elems(s) == Within(rows, rows[x].lft, rows[x].rgt)
      ensures x !in rows ==> s == []
    {
      s := FetchSubtreeDepthFirst(Table(rows, next), x);
      if x in rows {
        FetchSubtreeIsSubtree(Table(rows, next), x);
      } else {
        FetchSubtreeUnknown(Table(rows, next), x);
      }
    }

    /** `DELETE FROM tree WHERE lft BETWEEN left AND right`. */
    method DeleteRowsBetween(left: int, right: int)
      modifies this
      ensures rows == old(rows) - Within(old(rows), left, right) && next == old(next)
    {
      rows := map a | a in rows && !(left <= rows[a].lft <= right) :: rows[a];
      assert rows.Keys == (old(rows) - Within(old(rows), left, right)).Keys;
    }

    /** `UPDATE tree SET pid = parent WHERE id = x`: no row changes for an unknown id. */
    method UpdateParent(x: Id, parent: Id)
      modifies this
      ensures rows == (if x in old(rows) then old(rows)[x := old(rows)[x].(pid := Some(parent))] else old(rows))
      ensures next == old(next)
    {
      if x in rows {
        rows := rows[x := rows[x].(pid := Some(parent))];
      }
    }

    /** `UPDATE tree SET lft = lft + adjust, rgt = rgt + adjust WHERE id IN (ids)`. */
    method ShiftRows(ids: set<Id>, adjust: int)
      modifies this
      ensures ShiftedBy(old(rows), rows, ids, adjust) && next == old(next)
    {
      rows := map a | a in rows :: if a in ids then rows[a].(lft := rows[a].lft + adjust, rgt := rows[a].rgt + adjust) else rows[a];
    }

    /**
     * `setRootNode`: both tables are emptied (TRUNCATE resets the tree
     * table's counter, the data store's delete does not reset its own) and
     * a single root row `(1, 2)` is inserted. Then the node's payload is
     * read, fetching it now if it was not loaded, and stored for the new
     * row; a payload that can no longer be fetched, or a failing save,
     * leaves the new root without data.
     */
    method SetRootNode(node: DataStore.NodeValue, storeFault: bool) returns (r: Result<Id, TreeError>)
      requires dataStore.Valid()
      modifies this, dataStore
      ensures Wellformed()
      ensures rows == map[1 := Row(None, 1, 2)] && next == 2
      ensures var f := DataStore.DataOf(node, map[], dataStore.key, dataStore.columns);
        && (f.Err? ==> r == Err(f.error) && dataStore.rows == map[] && dataStore.next == old(dataStore.next))
        && (f.Ok? && storeFault ==>
              r == Err(DatastoreFailure("Data could not be saved")) && dataStore.rows == map[] && dataStore.next == old(dataStore.next))
        && (f.Ok? && !storeFault ==>
              r == Ok(1)
              && (dataStore.rows, dataStore.next) == DataStore.Upserted(map[], old(dataStore.next), dataStore.key, dataStore.columns, Some(1), f.value))
    {
      rows, next := map[], 1;
      dataStore.DeleteDataForAllNodes();
      var id := next;
      rows := rows[id := Row(None, 1, 2)];
      next := next + 1;
      RootOnly();
      var d :- DataStore.DataOf(node, dataStore.rows, dataStore.key, dataStore.columns);
      DataStore.UpsertKeepsRows(dataStore.key, dataStore.columns, dataStore.rows, dataStore.next, Some(id), d);
      var stored := dataStore.Upsert(Some(id), d, storeFault);
      if stored.Err? {
        return Err(stored.error);
      }
      return Ok(id);
    }

    /**
     * `addChild`: opens two slots at the parent's `rgt` and inserts the new
     * row there; a database failure rolls the tree table back and is
     * reported as a backend error. After the commit the node's payload is
     * read (fetched now if it was not loaded) and stored for the new row.
     */
    method AddChild(parent: Id, node: DataStore.NodeValue, fault: bool, storeFault: bool) returns (r: Result<Id, TreeError>)
      requires Wellformed() && parent in rows
      modifies this, dataStore
      ensures Wellformed()
      ensures fault ==>
        && r == Err(BackendDbFailure("AddChild")) && rows == old(rows) && next == old(next)
        && dataStore.rows == old(dataStore.rows) && dataStore.next == old(dataStore.next)
      ensures !fault ==> next == old(next) + 1 && rows == WithLeaf(old(rows), parent, old(next))
      ensures !fault ==>
        var f := DataStore.DataOf(node, old(dataStore.rows), dataStore.key, dataStore.columns);
        && (f.Err? ==> r == Err(f.error) && dataStore.rows == old(dataStore.rows) && dataStore.next == old(dataStore.next))
        && (f.Ok? && storeFault ==>
              r == Err(DatastoreFailure("Data could not be saved"))
              && dataStore.rows == old(dataStore.rows) && dataStore.next == old(dataStore.next))
        && (f.Ok? && !storeFault ==>
              r == Ok(old(next))
              && (dataStore.rows, dataStore.next)
                 == DataStore.Upserted(old(dataStore.rows), old(dataStore.next), dataStore.key, dataStore.columns, Some(old(next)), f.value))
    {
      if fault {
        return Err(BackendDbFailure("AddChild"));
      }
      ghost var t := rows;
      var left, right := rows[parent].lft, rows[parent].rgt;
      var width := right - left + 1;
      UpdateForAddition(right, 2, {});
      var newLeft, newRight;
      if width == 2 {
        newLeft, newRight := left + 1, left + 2;   // the parent is a leaf
      } else {
        newLeft, newRight := right, right + 1;
      }
      var id := next;
      ghost var shifted := rows;
      rows := rows[id := Row(Some(parent), newLeft, newRight)];
      AddedLeaf(t, parent, id, right, shifted, newLeft, newRight, rows, dataStore.rows);
      next := next + 1;
      var d :- DataStore.DataOf(node, dataStore.rows, dataStore.key, dataStore.columns);
      DataStore.UpsertKeepsRows(dataStore.key, dataStore.columns, dataStore.rows, dataStore.next, Some(id), d);
      var stored := dataStore.Upsert(Some(id), d, storeFault);
      if stored.Err? {
        return Err(stored.error);
      }
      return Ok(id);
    }

    /** `deleteDataForNodes` of the data store, over a list of node ids. */
    method DeleteDataFor(ids: seq<Id>)
      requires dataStore.Valid()
      modifies dataStore
      ensures dataStore.Valid() && dataStore.rows == old(dataStore.rows) - Elems(ids) && dataStore.next == old(dataStore.next)
    {
      DataStore.NodeKeysDeleted(ids);
      dataStore.DeleteDataForNodes(DataStore.NodeKeys(ids));
    }

    /**
     * `delete`: removes the data of the node's subtree, then its rows, and
     * closes the gap they leave. A database failure rolls both tables back.
     * For an unknown id nothing is removed, but the gap closed is the one
     * of a null row: every bound drops by one.
     */
    method Delete(x: Id, fault: bool) returns (r: Result<(), TreeError>)
      requires Wellformed()
      modifies this, dataStore
      ensures next == old(next) && dataStore.next == old(dataStore.next)
      ensures fault || x in old(rows) ==> Wellformed()
      ensures fault ==> r == Err(BackendDbFailure("delete")) && rows == old(rows) && dataStore.rows == old(dataStore.rows)
      ensures !fault && x in old(rows) ==>
        && r == Ok(())
        && rows == Pruned(old(rows), x)
        && dataStore.rows == old(dataStore.rows) - Within(old(rows), old(rows)[x].lft, old(rows)[x].rgt)
      ensures !fault && x !in old(rows) ==>
        r == Ok(()) && rows == Relabel(old(rows), Close(0, 1)) && dataStore.rows == old(dataStore.rows)
    {
      if fault {
        return Err(BackendDbFailure("delete"));
      }
      ghost var t, dt := rows, dataStore.rows;
      var nodeList := FetchSubtreeIds(x);
      DeleteDataFor(nodeList);
      var info := NodeInformation(rows, x);
      var left, right, width := info.0, info.1, info.2;
      DeleteRowsBetween(left, right);
      ghost var remaining := rows;
      UpdateForDeletion(right, width);
      DeleteOutcome(t, x, next, dt, nodeList, left, right, width, remaining, rows, dataStore.rows);
      return Ok(());
    }

    /**
     * `move`: re-parents `x`, closes the gap its subtree leaves, opens a gap
     * of the same width at the target's new `rgt` for every other row, and
     * shifts the subtree into it. A database failure rolls the table back.
     * For an unknown `x` the subtree is empty, and `id IN ()` is not valid
     * SQL, so the last statement fails and everything is rolled back. For
     * an unknown target the gap opens at a null bound: every other row moves
     * up by the width and the subtree is shifted to start at 0.
     */
    method Move(x: Id, target: Id, fault: bool) returns (r: Result<(), TreeError>)
      requires Wellformed()
      requires x in rows && target in rows ==> target !in Within(rows, rows[x].lft, rows[x].rgt)
      modifies this
      ensures next == old(next)
      ensures fault || x !in old(rows) ==> r == Err(BackendDbFailure("move")) && rows == old(rows) && Wellformed()
      ensures !fault && x in old(rows) && target in old(rows) ==>
        r == Ok(()) && Wellformed() && target in Pruned(old(rows), x) && rows == Moved(old(rows), x, target)
      ensures !fault && x in old(rows) && target !in old(rows) ==> r == Ok(()) && MovedToZero(old(rows), x, target, rows)
    {
      if fault {
        return Err(BackendDbFailure("move"));
      }
      ghost var t := rows;
      var saved := rows;
      var nodeList := FetchSubtreeIds(x);
      var nodeIds := Elems(nodeList);
      UpdateParent(x, target);
      ghost var t1 := rows;
      var origInfo := NodeInformation(rows, x);
      var origLeft, origRight, origWidth := origInfo.0, origInfo.1, origInfo.2;
      UpdateForDeletion(origRight, origWidth);
      ghost var t2 := rows;
      var targetRight := NodeInformation(rows, target).1;
      UpdateForAddition(targetRight, origWidth, nodeIds);
      ghost var t3 := rows;
      var adjust := targetRight - origLeft;
      if nodeList == [] {
        // the statement `UPDATE ... WHERE id IN ()` fails and the transaction is rolled back
        rows := saved;
        return Err(BackendDbFailure("move"));
      }
      ShiftRows(nodeIds, adjust);
      MoveOutcome(t, next, dataStore.rows, x, target, nodeIds, t1, origLeft, origRight, origWidth, t2, targetRight, t3, adjust, rows);
      return Ok(());
    }
  }
}
