/**
 * The nested set encoding of a tree and the facts about it that the
 * nested set backend relies on.
 *
 * Every node carries an interval `[lft, rgt]`; a node's descendants are
 * exactly the nodes whose intervals lie strictly inside its own, and the
 * `pid` column names the innermost enclosing node.  A well-formed table
 * uses each of the numbers `1 .. 2n` exactly once as a bound.
 */
module NestedSetInvariant {
  import opened Wrappers
  import opened TreeTable

  type Rows = map<Id, Row>

  /** Row `a`'s interval strictly contains row `b`'s. */
  predicate Encloses(a: Row, b: Row) {
    a.lft < b.lft && b.rgt < a.rgt
  }

  /** The two intervals do not meet. */
  predicate Apart(a: Row, b: Row) {
    a.rgt < b.lft || b.rgt < a.lft
  }

  /** Every interval is proper. */
  ghost predicate Ordered(t: Rows) {
    forall a :: a in t ==> t[a].lft < t[a].rgt
  }

  /** The bounds of `x` differ from those of `y`. */
  predicate Separate(x: Row, y: Row) {
    x.lft != y.lft && x.rgt != y.rgt && x.lft != y.rgt
  }

  /** Two intervals are nested or disjoint, never overlapping. */
  predicate NestedOrApart(x: Row, y: Row) {
    Encloses(x, y) || Encloses(y, x) || Apart(x, y)
  }

  /** No number is used as a bound twice. */
  ghost predicate Distinct(t: Rows) {
    forall a, b {:trigger Separate(t[a], t[b])} :: a in t && b in t && a != b ==> Separate(t[a], t[b])
  }

  /** Intervals never overlap. */
  ghost predicate Laminar(t: Rows) {
    forall a, b {:trigger NestedOrApart(t[a], t[b])} :: a in t && b in t && a != b ==> NestedOrApart(t[a], t[b])
  }

  /** The comparison-defined part of the invariant. */
  ghost predicate Shape(t: Rows) {
    Ordered(t) && Distinct(t) && Laminar(t)
  }

  /** Two distinct rows of a well-shaped table. */
  lemma ShapePair(t: Rows, a: Id, b: Id)
    requires Shape(t) && a in t && b in t && a != b
    ensures Separate(t[a], t[b]) && Separate(t[b], t[a]) && NestedOrApart(t[a], t[b])
    ensures t[a].lft < t[a].rgt && t[b].lft < t[b].rgt
  {
  }

  /** `pid` names the innermost enclosing node, and is null when none encloses `c`. */
  ghost predicate ParentOK(t: Rows, c: Id)
    requires c in t
  {
    match t[c].pid
    case None => forall q :: q in t ==> !Encloses(t[q], t[c])
    case Some(p) =>
      p in t && Encloses(t[p], t[c]) &&
      forall q :: q in t ==> !(Encloses(t[p], t[q]) && Encloses(t[q], t[c]))
  }

  ghost predicate Linked(t: Rows) {
    forall c {:trigger ParentOK(t, c)} :: c in t ==> ParentOK(t, c)
  }

  /** The numbers used as bounds. */
  ghost function Bounds(t: Rows): set<int> {
    (set a | a in t :: t[a].lft) + (set a | a in t :: t[a].rgt)
  }

  /** The numbers `lo .. hi`. */
  ghost function Interval(lo: int, hi: int): (s: set<int>)
    ensures forall x :: x in s <==> lo <= x <= hi
    ensures lo <= hi + 1 ==> |s| == hi - lo + 1
    decreases hi - lo
  {
    if hi < lo then {} else Interval(lo, hi - 1) + {hi}
  }

  /** Every bound lies in `lo .. hi`. */
  ghost predicate InRange(t: Rows, lo: int, hi: int) {
    forall a :: a in t ==> lo <= t[a].lft && t[a].rgt <= hi
  }

  /** Every node without parent has the interval `[1, m]`. */
  ghost predicate RootsCover(t: Rows, m: int) {
    forall c :: c in t && t[c].pid.None? ==> t[c].lft == 1 && t[c].rgt == m
  }

  /**
   * Every bound lies in `1 .. 2n`; with proper, distinct intervals this means
   * the bounds are exactly `1 .. 2n` (lemma DenseBounds).
   */
  ghost predicate Dense(t: Rows) {
    InRange(t, 1, 2 * |t|)
  }

  /** The invariant of the nested set tree table: a node without parent spans the whole numbering. */
  ghost predicate Valid(t: Rows) {
    Shape(t) && Linked(t) && Dense(t) && RootsCover(t, 2 * |t|)
  }

  /** The rows whose `lft` lies in `[lo, hi]`: the subtree of a node with that interval. */
  function Within(t: Rows, lo: int, hi: int): (s: set<Id>)
    ensures s <= t.Keys
    ensures forall a {:trigger a in s} :: a in s <==> a in t && lo <= t[a].lft <= hi
  {
    set a | a in t && lo <= t[a].lft <= hi
  }

  /** `t` restricted to the keys in `s`. */
  function Restrict(t: Rows, s: set<Id>): (r: Rows)
    ensures r.Keys == t.Keys * s
    ensures forall a {:trigger r[a]} :: a in r ==> r[a] == t[a]
  {
    map a | a in t && a in s :: t[a]
  }

  lemma RestrictCard(t: Rows, s: set<Id>)
    requires s <= t.Keys
    ensures Restrict(t, s).Keys == s && |Restrict(t, s)| == |s|
  {
    assert t.Keys * s == s;
  }

  /** The renumberings of bounds that the backend performs. */
  datatype Renumbering =
    | Open(g: int, w: int)   // bounds from `g` on move up by `w`, opening a gap `[g, g + w - 1]`
    | Close(r: int, w: int)  // bounds above `r` move down by `w`, closing the gap `[r - w + 1, r]`
    | Shift(d: int)          // every bound moves by `d`

  function Renumber(f: Renumbering, v: int): int {
    match f
    case Open(g, w) => if v >= g then v + w else v
    case Close(r, w) => if v > r then v - w else v
    case Shift(d) => v + d
  }

  /** Each row's bounds renumbered through `f`. */
  function Relabel(t: Rows, f: Renumbering): (r: Rows)
    ensures r.Keys == t.Keys
    ensures forall a {:trigger r[a]} :: a in r ==> r[a] == Row(t[a].pid, Renumber(f, t[a].lft), Renumber(f, t[a].rgt))
  {
    map a | a in t :: Row(t[a].pid, Renumber(f, t[a].lft), Renumber(f, t[a].rgt))
  }

  // ---------------------------------------------------------------------
  // Counting bounds

  lemma InBounds(t: Rows, a: Id)
    requires a in t
    ensures t[a].lft in Bounds(t) && t[a].rgt in Bounds(t)
  {
  }

  /** Every bound belongs to some row. */
  lemma BoundOwner(t: Rows, v: int) returns (a: Id)
    requires v in Bounds(t)
    ensures a in t && (t[a].lft == v || t[a].rgt == v)
  {
    if v in (set a | a in t :: t[a].lft) {
      a :| a in t && t[a].lft == v;
    } else {
      a :| a in t && t[a].rgt == v;
    }
  }

  /** Shape survives dropping rows. */
  lemma SubShape(t: Rows, u: Rows)
    requires u.Keys <= t.Keys && forall a :: a in u ==> u[a] == t[a]
    ensures Ordered(t) ==> Ordered(u)
    ensures Distinct(t) ==> Distinct(u)
    ensures Laminar(t) ==> Laminar(u)
  {
  }

  /** Dropping row `k` frees exactly its two bounds. */
  lemma BoundsRemove(t: Rows, k: Id)
    requires k in t && Ordered(t) && Distinct(t)
    ensures Bounds(t) == Bounds(t - {k}) + {t[k].lft, t[k].rgt}
    ensures t[k].lft != t[k].rgt
    ensures t[k].lft !in Bounds(t - {k}) && t[k].rgt !in Bounds(t - {k})
  {
    var u := t - {k};
    forall v | v in Bounds(t) ensures v in Bounds(u) + {t[k].lft, t[k].rgt} {
      var a := BoundOwner(t, v);
      if a != k { InBounds(u, a); }
    }
    forall v | v in Bounds(u) ensures v in Bounds(t) {
      var a := BoundOwner(u, v);
      InBounds(t, a);
    }
    InBounds(t, k);
    forall v | v in Bounds(u) ensures v != t[k].lft && v != t[k].rgt {
      var a := BoundOwner(u, v);
      assert Separate(t[a], t[k]) && Separate(t[k], t[a]);
    }
  }

  lemma AddTwoCard(b: set<int>, l: int, r: int)
    requires l != r && l !in b && r !in b
    ensures |b + {l, r}| == |b| + 2
  {
    assert b + {l, r} == (b + {l}) + {r};
  }

  lemma RemoveKeyCard(t: Rows, k: Id)
    requires k in t
    ensures |t - {k}| == |t| - 1
  {
    assert (t - {k}).Keys == t.Keys - {k};
  }

  /** Proper, distinct intervals use exactly two numbers per row. */
  lemma {:induction false} BoundsCard(t: Rows)
    requires Ordered(t) && Distinct(t)
    ensures |Bounds(t)| == 2 * |t|
    decreases |t|
  {
    if t == map[] {
      assert Bounds(t) == {};
    } else {
      var k :| k in t;
      var u := t - {k};
      SubShape(t, u);
      BoundsCard(u);
      BoundsRemove(t, k);
      AddTwoCard(Bounds(u), t[k].lft, t[k].rgt);
      RemoveKeyCard(t, k);
    }
  }

  /** A table of proper, distinct intervals whose bounds are `1 .. m` has `m == 2n`. */
  lemma DenseByCount(t: Rows, m: int)
    requires Ordered(t) && Distinct(t) && m >= 0
    requires Bounds(t) == Interval(1, m)
    ensures m == 2 * |t| && Dense(t)
  {
    BoundsCard(t);
    forall a | a in t ensures 1 <= t[a].lft && t[a].rgt <= 2 * |t| {
      InBounds(t, a);
    }
  }

  /** A dense table uses every number of `1 .. 2n` as a bound. */
  lemma DenseBounds(t: Rows)
    requires Ordered(t) && Distinct(t) && Dense(t)
    ensures Bounds(t) == Interval(1, 2 * |t|)
  {
    var B, I := Bounds(t), Interval(1, 2 * |t|);
    forall v | v in B ensures v in I {
      var a := BoundOwner(t, v);
    }
    BoundsCard(t);
    assert |I - B| == |I| - |B| == 0;
  }

  // ---------------------------------------------------------------------
  // Renumbering

  /** The numbers on which a renumbering is required to keep the order. */
  datatype Domain = Everywhere | Outside(lo: int, hi: int)

  predicate Admits(d: Domain, v: int) {
    match d
    case Everywhere => true
    case Outside(lo, hi) => v < lo || v > hi
  }

  /** `f` is strictly increasing on the numbers `ok` admits. */
  ghost predicate Increasing(f: Renumbering, ok: Domain) {
    forall x, y :: Admits(ok, x) && Admits(ok, y) && x < y ==> Renumber(f, x) < Renumber(f, y)
  }

  /** `ok` admits every bound of `t`. */
  ghost predicate BoundsAll(t: Rows, ok: Domain) {
    forall a :: a in t ==> Admits(ok, t[a].lft) && Admits(ok, t[a].rgt)
  }

  /** A strictly increasing renumbering keeps and reflects every comparison. */
  lemma IncreasingIff(f: Renumbering, ok: Domain, x: int, y: int)
    requires Increasing(f, ok) && Admits(ok, x) && Admits(ok, y)
    ensures x < y <==> Renumber(f, x) < Renumber(f, y)
    ensures x == y <==> Renumber(f, x) == Renumber(f, y)
  {
    if y < x { assert Renumber(f, y) < Renumber(f, x); }
    if x < y { assert Renumber(f, x) < Renumber(f, y); }
  }

  /** The relations between two rows are the same before and after renumbering. */
  lemma RelabelPair(t: Rows, f: Renumbering, ok: Domain, a: Id, b: Id)
    requires a in t && b in t && Increasing(f, ok) && BoundsAll(t, ok)
    ensures var r := Relabel(t, f);
      && (r[a].lft < r[a].rgt <==> t[a].lft < t[a].rgt)
      && (r[a].lft == r[b].lft <==> t[a].lft == t[b].lft)
      && (r[a].rgt == r[b].rgt <==> t[a].rgt == t[b].rgt)
      && (r[a].lft == r[b].rgt <==> t[a].lft == t[b].rgt)
      && (Encloses(r[a], r[b]) <==> Encloses(t[a], t[b]))
      && (Apart(r[a], r[b]) <==> Apart(t[a], t[b]))
      && (Separate(r[a], r[b]) <==> Separate(t[a], t[b]))
      && (NestedOrApart(r[a], r[b]) <==> NestedOrApart(t[a], t[b]))
  {
    IncreasingIff(f, ok, t[a].lft, t[a].rgt);
    IncreasingIff(f, ok, t[a].lft, t[b].lft);
    IncreasingIff(f, ok, t[b].lft, t[a].lft);
    IncreasingIff(f, ok, t[a].rgt, t[b].rgt);
    IncreasingIff(f, ok, t[b].rgt, t[a].rgt);
    IncreasingIff(f, ok, t[a].lft, t[b].rgt);
    IncreasingIff(f, ok, t[b].lft, t[a].rgt);
    IncreasingIff(f, ok, t[a].rgt, t[b].lft);
    IncreasingIff(f, ok, t[b].rgt, t[a].lft);
  }

  lemma RelabelShape(t: Rows, f: Renumbering, ok: Domain)
    requires Increasing(f, ok) && BoundsAll(t, ok) && Shape(t)
    ensures Shape(Relabel(t, f))
  {
    var r := Relabel(t, f);
    forall a, b | a in r && b in r
      ensures r[a].lft < r[a].rgt
      ensures a != b ==> Separate(r[a], r[b]) && NestedOrApart(r[a], r[b])
    {
      RelabelPair(t, f, ok, a, b);
    }
  }

  lemma RelabelParentOK(t: Rows, f: Renumbering, ok: Domain, c: Id)
    requires Increasing(f, ok) && BoundsAll(t, ok) && c in t && ParentOK(t, c)
    ensures ParentOK(Relabel(t, f), c)
  {
    var r := Relabel(t, f);
    match t[c].pid
    case None =>
      forall q | q in r ensures !Encloses(r[q], r[c]) {
        RelabelPair(t, f, ok, q, c);
      }
    case Some(p) =>
      RelabelPair(t, f, ok, p, c);
      forall q | q in r ensures !(Encloses(r[p], r[q]) && Encloses(r[q], r[c])) {
        RelabelPair(t, f, ok, p, q);
        RelabelPair(t, f, ok, q, c);
      }
  }

  lemma RelabelLinked(t: Rows, f: Renumbering, ok: Domain)
    requires Increasing(f, ok) && BoundsAll(t, ok) && Linked(t)
    ensures Linked(Relabel(t, f))
  {
    forall c | c in t ensures ParentOK(Relabel(t, f), c) {
      RelabelParentOK(t, f, ok, c);
    }
  }

  /** A strictly increasing renumbering keeps the shape and the parent links. */
  lemma RelabelKeepsShape(t: Rows, f: Renumbering, ok: Domain)
    requires Increasing(f, ok) && BoundsAll(t, ok) && Shape(t) && Linked(t)
    ensures Shape(Relabel(t, f)) && Linked(Relabel(t, f))
  {
    RelabelShape(t, f, ok);
    RelabelLinked(t, f, ok);
  }

  lemma OpenIncreasing(g: int, w: int, t: Rows)
    requires w >= 0
    ensures Increasing(Open(g, w), Everywhere) && BoundsAll(t, Everywhere)
  {
  }

  lemma ShiftIncreasing(d: int, t: Rows)
    ensures Increasing(Shift(d), Everywhere) && BoundsAll(t, Everywhere)
  {
  }

  lemma CloseIncreasing(lo: int, hi: int)
    ensures Increasing(Close(hi, hi - lo + 1), Outside(lo, hi))
  {
  }

  // ---------------------------------------------------------------------
  // Subtrees

  /** The rows of a node's subtree are the node and the rows it encloses; all others lie outside its interval. */
  lemma SubtreeRows(t: Rows, x: Id)
    requires Shape(t) && x in t
    ensures var S := Within(t, t[x].lft, t[x].rgt);
      && (forall a :: a in t ==> (a in S <==> a == x || Encloses(t[x], t[a])))
      && (forall a :: a in S ==> t[x].lft <= t[a].lft < t[a].rgt <= t[x].rgt)
      && (forall a :: a in t && a !in S ==>
            !(t[x].lft <= t[a].lft <= t[x].rgt) && !(t[x].lft <= t[a].rgt <= t[x].rgt))
  {
    var S := Within(t, t[x].lft, t[x].rgt);
    forall a | a in t
      ensures a in S <==> a == x || Encloses(t[x], t[a])
      ensures a in S ==> t[x].lft <= t[a].lft < t[a].rgt <= t[x].rgt
      ensures a !in S ==> !(t[x].lft <= t[a].lft <= t[x].rgt) && !(t[x].lft <= t[a].rgt <= t[x].rgt)
    {
      if a != x { ShapePair(t, x, a); }
    }
  }

  lemma SubtreeBounds(t: Rows, x: Id)
    requires Shape(t) && Dense(t) && x in t
    ensures Bounds(Restrict(t, Within(t, t[x].lft, t[x].rgt))) == Interval(t[x].lft, t[x].rgt)
  {
    DenseBounds(t);
    var L, R := t[x].lft, t[x].rgt;
    var I := Restrict(t, Within(t, L, R));
    SubtreeRows(t, x);
    InBounds(t, x);
    forall v | v in Bounds(I) ensures L <= v <= R {
      var a := BoundOwner(I, v);
    }
    forall v | L <= v <= R ensures v in Bounds(I) {
      assert v in Interval(1, 2 * |t|);
      var a := BoundOwner(t, v);
      InBounds(I, a);
    }
  }

  /** A subtree whose interval is `[L, R]` has `(R - L + 1) / 2` nodes. */
  lemma SubtreeSize(t: Rows, x: Id)
    requires Shape(t) && Dense(t) && x in t
    ensures 2 * |Within(t, t[x].lft, t[x].rgt)| == t[x].rgt - t[x].lft + 1
  {
    var S := Within(t, t[x].lft, t[x].rgt);
    var I := Restrict(t, S);
    SubShape(t, I);
    SubtreeBounds(t, x);
    BoundsCard(I);
    RestrictCard(t, S);
  }

  /** Removing a whole subtree leaves every remaining parent link intact. */
  lemma RestLinked(t: Rows, x: Id)
    requires Shape(t) && Linked(t) && x in t
    ensures Linked(t - Within(t, t[x].lft, t[x].rgt))
  {
    var S := Within(t, t[x].lft, t[x].rgt);
    SubtreeRows(t, x);
    forall c | c in t - S ensures ParentOK(t - S, c) {
      assert ParentOK(t, c);
    }
  }

  /** Inside a subtree, every node but its top keeps its parent link. */
  lemma InnerLinked(t: Rows, x: Id)
    requires Shape(t) && Linked(t) && x in t
    ensures var S := Within(t, t[x].lft, t[x].rgt);
      forall c :: c in S && c != x ==> ParentOK(Restrict(t, S), c)
  {
    var S := Within(t, t[x].lft, t[x].rgt);
    var I := Restrict(t, S);
    SubtreeRows(t, x);
    forall c | c in S && c != x ensures ParentOK(I, c) {
      assert ParentOK(t, c);
      assert Encloses(t[x], t[c]);
      var p := t[c].pid.value;
      assert p in S;
    }
  }

  // ---------------------------------------------------------------------
  // Deleting a subtree

  /** The table after the subtree of `x` is deleted and the gap it leaves is closed. */
  function Pruned(t: Rows, x: Id): (r: Rows)
    requires x in t
    ensures r.Keys == t.Keys - Within(t, t[x].lft, t[x].rgt)
  {
    var L, R := t[x].lft, t[x].rgt;
    Relabel(t - Within(t, L, R), Close(R, R - L + 1))
  }

  lemma RemoveCard(t: Rows, s: set<Id>)
    requires s <= t.Keys
    ensures |t - s| == |t| - |s|
  {
    assert (t - s).Keys == t.Keys - s;
  }

  lemma PrunedDef(t: Rows, x: Id)
    requires x in t
    ensures Pruned(t, x)
         == Relabel(t - Within(t, t[x].lft, t[x].rgt), Close(t[x].rgt, t[x].rgt - t[x].lft + 1))
  {
  }

  /** The rows outside a subtree have their bounds outside its interval. */
  lemma RestOutside(t: Rows, x: Id)
    requires Shape(t) && x in t
    ensures BoundsAll(t - Within(t, t[x].lft, t[x].rgt), Outside(t[x].lft, t[x].rgt))
  {
    SubtreeRows(t, x);
  }

  /** What is left after cutting a subtree out keeps its shape and links, and avoids the cut interval. */
  lemma RestShape(t: Rows, x: Id)
    requires Shape(t) && Linked(t) && x in t
    ensures var u := t - Within(t, t[x].lft, t[x].rgt);
      Shape(u) && Linked(u) && BoundsAll(u, Outside(t[x].lft, t[x].rgt))
  {
    SubShape(t, t - Within(t, t[x].lft, t[x].rgt));
    RestLinked(t, x);
    RestOutside(t, x);
  }

  lemma RestRelabelShape(t: Rows, x: Id)
    requires Shape(t) && Linked(t) && x in t
    ensures var r := Relabel(t - Within(t, t[x].lft, t[x].rgt), Close(t[x].rgt, t[x].rgt - t[x].lft + 1));
      Shape(r) && Linked(r)
  {
    RestShape(t, x);
    CloseIncreasing(t[x].lft, t[x].rgt);
    RelabelKeepsShape(t - Within(t, t[x].lft, t[x].rgt), Close(t[x].rgt, t[x].rgt - t[x].lft + 1), Outside(t[x].lft, t[x].rgt));
  }

  lemma PrunedShape(t: Rows, x: Id)
    requires Shape(t) && Linked(t) && x in t
    ensures Shape(Pruned(t, x)) && Linked(Pruned(t, x))
  {
    PrunedDef(t, x);
    RestRelabelShape(t, x);
  }

  lemma PrunedSize(t: Rows, x: Id)
    requires Shape(t) && Dense(t) && x in t
    ensures 2 * |Pruned(t, x)| == 2 * |t| - (t[x].rgt - t[x].lft + 1)
  {
    var S := Within(t, t[x].lft, t[x].rgt);
    SubtreeSize(t, x);
    RemoveCard(t, S);
  }

  /** A row left after the cut moves down by the width of the gap if it lay to the right of it. */
  lemma PrunedRow(t: Rows, x: Id, a: Id)
    requires Shape(t) && Dense(t) && x in t && a in Pruned(t, x)
    ensures var r, w := Pruned(t, x), t[x].rgt - t[x].lft + 1;
      && 1 <= r[a].lft && r[a].rgt <= 2 * |t| - w
      && (t[a].lft == 1 && t[a].rgt == 2 * |t| ==> r[a].lft == 1 && r[a].rgt == 2 * |t| - w)
      && r[a].pid == t[a].pid
  {
    SubtreeRows(t, x);
  }

  lemma PrunedRows(t: Rows, x: Id)
    requires Shape(t) && Dense(t) && RootsCover(t, 2 * |t|) && x in t
    ensures Dense(Pruned(t, x)) && RootsCover(Pruned(t, x), 2 * |Pruned(t, x)|)
  {
    var r := Pruned(t, x);
    PrunedSize(t, x);
    forall a | a in r ensures 1 <= r[a].lft && r[a].rgt <= 2 * |r| {
      PrunedRow(t, x, a);
    }
    forall a | a in r && r[a].pid.None? ensures r[a].lft == 1 && r[a].rgt == 2 * |r| {
      PrunedRow(t, x, a);
    }
  }

  /** Deleting a subtree keeps the table a well-formed nested set. */
  lemma PrunedValid(t: Rows, x: Id)
    requires Valid(t) && x in t
    ensures Valid(Pruned(t, x))
    ensures 2 * |Pruned(t, x)| == 2 * |t| - (t[x].rgt - t[x].lft + 1)
  {
    PrunedShape(t, x);
    PrunedRows(t, x);
    PrunedSize(t, x);
  }

  // ---------------------------------------------------------------------
  // Hanging a block of rows into a gap

  /** No bound of `t` falls into the gap `[g, g + w - 1]`. */
  ghost predicate Avoids(t: Rows, g: int, w: int) {
    forall a :: a in t ==>
      (t[a].lft < g || t[a].lft >= g + w) && (t[a].rgt < g || t[a].rgt >= g + w)
  }

  /** Every row but the top `x` has its parent link right. */
  ghost predicate LinkedBelow(t: Rows, x: Id) {
    forall c {:trigger ParentOK(t, c)} :: c in t && c != x ==> ParentOK(t, c)
  }

  /** `b` is a subtree with top `x` numbered exactly over `[g, g + w - 1]`. */
  ghost predicate Block(b: Rows, x: Id, g: int, w: int) {
    && Shape(b) && LinkedBelow(b, x) && InRange(b, g, g + w - 1)
    && x in b && b[x].lft == g && b[x].rgt == g + w - 1
  }

  /**
   * `inner` is a subtree with top `x`, numbered exactly over the gap
   * `[g, g + w - 1]` that `outer` leaves free just before the right bound of `p`.
   */
  ghost predicate Graftable(outer: Rows, inner: Rows, p: Id, x: Id, g: int, w: int) {
    && (forall a :: a in outer ==> a !in inner)
    && Shape(outer) && Linked(outer) && Avoids(outer, g, w)
    && Shape(inner) && LinkedBelow(inner, x) && InRange(inner, g, g + w - 1)
    && p in outer && outer[p].lft < g && outer[p].rgt == g + w
    && x in inner && inner[x].lft == g && inner[x].rgt == g + w - 1
  }

  /** `inner` hung under `p`: the top of the block gets `p` as parent. */
  function Grafted(outer: Rows, inner: Rows, p: Id, x: Id): (r: Rows)
    requires x in inner
    ensures forall a :: a in r <==> a in outer || a in inner
  {
    outer + inner[x := inner[x].(pid := Some(p))]
  }

  /** Where a row of the grafted table comes from. */
  lemma GraftedRow(outer: Rows, inner: Rows, p: Id, x: Id, a: Id)
    requires (forall a :: a in outer ==> a !in inner) && x in inner && (a in outer || a in inner)
    ensures a in outer ==> Grafted(outer, inner, p, x)[a] == outer[a]
    ensures a in inner && a != x ==> Grafted(outer, inner, p, x)[a] == inner[a]
    ensures a == x ==> Grafted(outer, inner, p, x)[a] == inner[x].(pid := Some(p))
  {
  }

  /** A row of `outer` and a row of the block are disjoint or the outer one encloses. */
  lemma CrossPair(outer: Rows, inner: Rows, p: Id, x: Id, g: int, w: int, a: Id, b: Id)
    requires Graftable(outer, inner, p, x, g, w) && a in outer && b in inner
    ensures outer[a].lft != inner[b].lft && outer[a].rgt != inner[b].rgt
    ensures outer[a].lft != inner[b].rgt && inner[b].lft != outer[a].rgt
    ensures !Encloses(inner[b], outer[a])
    ensures Encloses(outer[a], inner[b]) || Apart(outer[a], inner[b])
  {
    assert inner[b].lft < inner[b].rgt;
  }

  lemma GraftPair(outer: Rows, inner: Rows, p: Id, x: Id, g: int, w: int, a: Id, b: Id)
    requires Graftable(outer, inner, p, x, g, w)
    requires (a in outer || a in inner) && (b in outer || b in inner) && a != b
    ensures var r := Grafted(outer, inner, p, x);
      Separate(r[a], r[b]) && NestedOrApart(r[a], r[b])
  {
    GraftedRow(outer, inner, p, x, a);
    GraftedRow(outer, inner, p, x, b);
    if a in outer && b in inner {
      CrossPair(outer, inner, p, x, g, w, a, b);
    } else if b in outer && a in inner {
      CrossPair(outer, inner, p, x, g, w, b, a);
    } else if a in outer {
      ShapePair(outer, a, b);
    } else {
      ShapePair(inner, a, b);
    }
  }

  lemma GraftShape(outer: Rows, inner: Rows, p: Id, x: Id, g: int, w: int)
    requires Graftable(outer, inner, p, x, g, w)
    ensures Shape(Grafted(outer, inner, p, x))
  {
    var r := Grafted(outer, inner, p, x);
    forall a, b | a in r && b in r && a != b
      ensures Separate(r[a], r[b]) && NestedOrApart(r[a], r[b])
    {
      GraftPair(outer, inner, p, x, g, w, a, b);
    }
    forall a | a in r ensures r[a].lft < r[a].rgt {
      GraftedRow(outer, inner, p, x, a);
    }
  }

  lemma GraftLinkedOuter(outer: Rows, inner: Rows, p: Id, x: Id, g: int, w: int, c: Id)
    requires Graftable(outer, inner, p, x, g, w) && c in outer
    ensures ParentOK(Grafted(outer, inner, p, x), c)
  {
    var r := Grafted(outer, inner, p, x);
    assert ParentOK(outer, c);
    forall q | q in r ensures !Encloses(r[q], r[c]) || q in outer {
      GraftedRow(outer, inner, p, x, q);
      if q in inner { CrossPair(outer, inner, p, x, g, w, c, q); }
    }
  }

  lemma GraftLinkedTop(outer: Rows, inner: Rows, p: Id, x: Id, g: int, w: int)
    requires Graftable(outer, inner, p, x, g, w)
    ensures ParentOK(Grafted(outer, inner, p, x), x)
  {
    var r := Grafted(outer, inner, p, x);
    GraftedRow(outer, inner, p, x, x);
    GraftedRow(outer, inner, p, x, p);
    forall q | q in r ensures !(Encloses(r[p], r[q]) && Encloses(r[q], r[x])) {
      GraftedRow(outer, inner, p, x, q);
    }
  }

  lemma GraftLinkedInner(outer: Rows, inner: Rows, p: Id, x: Id, g: int, w: int, c: Id)
    requires Graftable(outer, inner, p, x, g, w) && c in inner && c != x
    ensures ParentOK(Grafted(outer, inner, p, x), c)
  {
    var r := Grafted(outer, inner, p, x);
    ShapePair(inner, x, c);
    assert ParentOK(inner, c);
    var pc := inner[c].pid.value;
    GraftedRow(outer, inner, p, x, c);
    GraftedRow(outer, inner, p, x, pc);
    assert Encloses(r[pc], r[c]);
    forall q | q in r ensures !(Encloses(r[pc], r[q]) && Encloses(r[q], r[c])) {
      GraftedRow(outer, inner, p, x, q);
      if q in outer { CrossPair(outer, inner, p, x, g, w, q, pc); }
    }
  }

  lemma GraftLinked(outer: Rows, inner: Rows, p: Id, x: Id, g: int, w: int)
    requires Graftable(outer, inner, p, x, g, w)
    ensures Linked(Grafted(outer, inner, p, x))
  {
    var r := Grafted(outer, inner, p, x);
    forall c | c in r ensures ParentOK(r, c) {
      if c in outer {
        GraftLinkedOuter(outer, inner, p, x, g, w, c);
      } else if c == x {
        GraftLinkedTop(outer, inner, p, x, g, w);
      } else {
        GraftLinkedInner(outer, inner, p, x, g, w, c);
      }
    }
  }

  lemma UnionCard(outer: Rows, inner: Rows)
    requires forall a :: a in outer ==> a !in inner
    ensures |outer + inner| == |outer| + |inner|
  {
    assert (outer + inner).Keys == outer.Keys + inner.Keys;
    assert outer.Keys !! inner.Keys;
  }

  /** Below its top, every row of the block keeps a parent. */
  lemma InnerHasParent(outer: Rows, inner: Rows, p: Id, x: Id, g: int, w: int, a: Id)
    requires Graftable(outer, inner, p, x, g, w) && a in inner && a != x
    ensures inner[a].pid.Some?
  {
    assert ParentOK(inner, a);
    ShapePair(inner, x, a);
  }

  /** Each row of the grafted table lies in `1 .. m`, and only the rows of `outer` can be roots. */
  lemma GraftRowRange(outer: Rows, inner: Rows, p: Id, x: Id, g: int, w: int, m: int, a: Id)
    requires Graftable(outer, inner, p, x, g, w)
    requires 1 <= g && g + w - 1 <= m && InRange(outer, 1, m) && RootsCover(outer, m)
    requires a in outer || a in inner
    ensures var r := Grafted(outer, inner, p, x);
      && 1 <= r[a].lft && r[a].rgt <= m
      && (r[a].pid.None? ==> r[a].lft == 1 && r[a].rgt == m)
  {
    GraftedRow(outer, inner, p, x, a);
    if a in inner && a != x {
      InnerHasParent(outer, inner, p, x, g, w, a);
    }
  }

  lemma GraftRange(outer: Rows, inner: Rows, p: Id, x: Id, g: int, w: int, m: int)
    requires Graftable(outer, inner, p, x, g, w)
    requires 1 <= g && g + w - 1 <= m && InRange(outer, 1, m) && RootsCover(outer, m)
    ensures InRange(Grafted(outer, inner, p, x), 1, m) && RootsCover(Grafted(outer, inner, p, x), m)
  {
    var r := Grafted(outer, inner, p, x);
    forall a | a in r ensures 1 <= r[a].lft && r[a].rgt <= m {
      GraftRowRange(outer, inner, p, x, g, w, m, a);
    }
    forall a | a in r && r[a].pid.None? ensures r[a].lft == 1 && r[a].rgt == m {
      GraftRowRange(outer, inner, p, x, g, w, m, a);
    }
  }

  /** The graft fills the numbering `1 .. m` exactly, and `outer` already spans it. */
  ghost predicate GraftFills(outer: Rows, inner: Rows, p: Id, x: Id, g: int, w: int, m: int) {
    && Graftable(outer, inner, p, x, g, w)
    && 1 <= g && g + w - 1 <= m && 2 * (|outer| + |inner|) == m
    && InRange(outer, 1, m) && RootsCover(outer, m)
  }

  /** A block hung into a gap so that the numbering `1 .. m` is complete yields a well-formed nested set. */
  lemma GraftValid(outer: Rows, inner: Rows, p: Id, x: Id, g: int, w: int, m: int)
    requires GraftFills(outer, inner, p, x, g, w, m)
    ensures Valid(Grafted(outer, inner, p, x))
  {
    GraftShape(outer, inner, p, x, g, w);
    GraftLinked(outer, inner, p, x, g, w);
    GraftRange(outer, inner, p, x, g, w, m);
    UnionCard(outer, inner[x := inner[x].(pid := Some(p))]);
  }

  // ---------------------------------------------------------------------
  // Opening a gap of width `w` at `g` leaves room for a block.

  lemma OpenGapShape(u: Rows, g: int, w: int)
    requires Shape(u) && Linked(u) && w >= 0
    ensures Shape(Relabel(u, Open(g, w))) && Linked(Relabel(u, Open(g, w)))
  {
    OpenIncreasing(g, w, u);
    RelabelKeepsShape(u, Open(g, w), Everywhere);
  }

  lemma OpenGapAvoids(u: Rows, g: int, w: int)
    ensures Avoids(Relabel(u, Open(g, w)), g, w)
  {
  }

  lemma OpenGapRange(u: Rows, g: int, w: int, m: int)
    requires InRange(u, 1, m) && w >= 0
    ensures InRange(Relabel(u, Open(g, w)), 1, m + w)
  {
  }

  lemma OpenGapRoots(u: Rows, g: int, w: int, m: int)
    requires RootsCover(u, m) && 1 < g <= m
    ensures RootsCover(Relabel(u, Open(g, w)), m + w)
  {
  }

  /** The right bound of a node of a dense table lies in `2 .. 2n`. */
  lemma RightBound(t: Rows, a: Id)
    requires Ordered(t) && Dense(t) && a in t
    ensures 2 <= t[a].rgt <= 2 * |t|
  {
  }

  /** Opening a gap at the right bound `g` of a node of a valid table. */
  lemma OpenGap(u: Rows, y: Id, w: int)
    requires Valid(u) && y in u && w >= 0
    ensures var g, o := u[y].rgt, Relabel(u, Open(u[y].rgt, w));
      && Shape(o) && Linked(o) && Avoids(o, g, w)
      && InRange(o, 1, 2 * |u| + w) && RootsCover(o, 2 * |u| + w)
      && o[y].lft < g && o[y].rgt == g + w && 2 <= g <= 2 * |u| && |o| == |u|
  {
    var g := u[y].rgt;
    RightBound(u, y);
    OpenGapShape(u, g, w);
    OpenGapAvoids(u, g, w);
    OpenGapRange(u, g, w, 2 * |u|);
    OpenGapRoots(u, g, w, 2 * |u|);
  }

  /**
   * A block hung into a gap opened at the right bound of `y` keeps a valid
   * table valid; `r` names the resulting table.
   */
  lemma OpenGraftValid(u: Rows, y: Id, inner: Rows, x: Id, w: int, r: Rows)
    requires Valid(u) && y in u && (forall a :: a in u ==> a !in inner)
    requires Block(inner, x, u[y].rgt, w) && 2 * |inner| == w
    requires r == Grafted(Relabel(u, Open(u[y].rgt, w)), inner, y, x)
    ensures Valid(r)
  {
    var g := u[y].rgt;
    OpenGap(u, y, w);
    GraftValid(Relabel(u, Open(g, w)), inner, y, x, g, w, 2 * |u| + w);
  }

  // ---------------------------------------------------------------------
  // Adding a leaf

  /** The table after a leaf `c` is appended as the last child of `p`. */
  function WithLeaf(t: Rows, p: Id, c: Id): (r: Rows)
    requires p in t
    ensures r.Keys == t.Keys + {c}
  {
    var g := t[p].rgt;
    Relabel(t, Open(g, 2))[c := Row(Some(p), g, g + 1)]
  }

  /** A lone leaf spanning `[g, g + 1]` is a block of width 2. */
  lemma LeafBlock(c: Id, g: int)
    ensures Block(map[c := Row(None, g, g + 1)], c, g, 2)
  {
  }

  lemma WithLeafIsGraft(t: Rows, p: Id, c: Id)
    requires p in t && c !in t
    ensures var g := t[p].rgt;
      WithLeaf(t, p, c) == Grafted(Relabel(t, Open(g, 2)), map[c := Row(None, g, g + 1)], p, c)
  {
  }

  /** Appending a leaf keeps the table a well-formed nested set. */
  lemma WithLeafValid(t: Rows, p: Id, c: Id)
    requires Valid(t) && p in t && c !in t
    ensures Valid(WithLeaf(t, p, c))
  {
    LeafBlock(c, t[p].rgt);
    WithLeafIsGraft(t, p, c);
    OpenGraftValid(t, p, map[c := Row(None, t[p].rgt, t[p].rgt + 1)], c, 2, WithLeaf(t, p, c));
  }

  // ---------------------------------------------------------------------
  // Moving a subtree

  /** The rows of the subtree of `x`, `x` included. */
  function Subtree(t: Rows, x: Id): (r: Rows)
    requires x in t
    ensures forall a :: a in r <==> a in t && t[x].lft <= t[a].lft <= t[x].rgt
    ensures forall a :: a in r ==> r[a] == t[a]
  {
    Restrict(t, Within(t, t[x].lft, t[x].rgt))
  }

  /**
   * The block `I` with top `x` renumbered into a gap of its own width opened
   * at the right bound of `y` in `u`, and hung under `y`.
   */
  function MovedInto(u: Rows, I: Rows, y: Id, x: Id): (r: Rows)
    requires y in u && x in I
    ensures forall a :: a in r <==> a in u || a in I
  {
    var L, R := I[x].lft, I[x].rgt;
    var g := u[y].rgt;
    Grafted(Relabel(u, Open(g, R - L + 1)), Relabel(I, Shift(g - L)), y, x)
  }

  /**
   * The table after the subtree of `x` is moved under `y`: the subtree is cut
   * out and its gap closed, a gap of the same width is opened before the right
   * bound of `y`, and the subtree is renumbered into that gap.
   */
  function Moved(t: Rows, x: Id, y: Id): (r: Rows)
    requires Ordered(t) && x in t && y in Pruned(t, x)
    ensures r.Keys == t.Keys
  {
    MovedInto(Pruned(t, x), Subtree(t, x), y, x)
  }

  /** A subtree cut out of a valid table, as a block of its own. */
  lemma SubtreeBlock(t: Rows, x: Id)
    requires Valid(t) && x in t
    ensures var I := Subtree(t, x);
      Block(I, x, t[x].lft, t[x].rgt - t[x].lft + 1) && 2 * |I| == t[x].rgt - t[x].lft + 1
      && I[x] == t[x]
  {
    var L, R := t[x].lft, t[x].rgt;
    var S := Within(t, L, R);
    var I := Restrict(t, S);
    SubtreeRows(t, x);
    SubtreeSize(t, x);
    RestrictCard(t, S);
    SubShape(t, I);
    InnerLinked(t, x);
    assert x in S;
  }

  /** Shifting a block by `d` gives a block `d` further on. */
  lemma ShiftBlock(I: Rows, x: Id, g: int, w: int, d: int)
    requires Block(I, x, g, w)
    ensures Block(Relabel(I, Shift(d)), x, g + d, w) && |Relabel(I, Shift(d))| == |I|
  {
    var J := Relabel(I, Shift(d));
    ShiftIncreasing(d, I);
    RelabelShape(I, Shift(d), Everywhere);
    forall c | c in J && c != x ensures ParentOK(J, c) {
      assert ParentOK(I, c);
      RelabelParentOK(I, Shift(d), Everywhere, c);
    }
  }

  /** Shifting a block that starts at `g` so that it starts at `h`. */
  lemma ShiftTo(I: Rows, x: Id, g: int, w: int, h: int)
    requires Block(I, x, g, w)
    ensures var J := Relabel(I, Shift(h - g));
      Block(J, x, h, w) && |J| == |I| && forall a :: a in J <==> a in I
  {
    ShiftBlock(I, x, g, w, h - g);
    assert g + (h - g) == h;
  }

  lemma MovedIntoIsGraft(u: Rows, I: Rows, y: Id, x: Id, g: int, L: int, w: int)
    requires y in u && x in I && g == u[y].rgt && L == I[x].lft && w == I[x].rgt - I[x].lft + 1
    ensures MovedInto(u, I, y, x) == Grafted(Relabel(u, Open(g, w)), Relabel(I, Shift(g - L)), y, x)
  {
  }

  /** A block moved into a gap opened under `y` of a valid table apart from it gives a valid table. */
  lemma MovedIntoValid(u: Rows, I: Rows, y: Id, x: Id)
    requires Valid(u) && y in u && (forall a :: a in u ==> a !in I)
    requires x in I && Block(I, x, I[x].lft, I[x].rgt - I[x].lft + 1)
    requires 2 * |I| == I[x].rgt - I[x].lft + 1
    ensures Valid(MovedInto(u, I, y, x))
  {
    var L, w := I[x].lft, I[x].rgt - I[x].lft + 1;
    var g := u[y].rgt;
    var J := Relabel(I, Shift(g - L));
    ShiftTo(I, x, L, w, g);
    MovedIntoIsGraft(u, I, y, x, g, L, w);
    OpenGraftValid(u, y, J, x, w, MovedInto(u, I, y, x));
  }

  /** Moving a subtree under a node outside it keeps the table a well-formed nested set. */
  lemma MovedValid(t: Rows, x: Id, y: Id)
    requires Valid(t) && x in t && y in t && y !in Within(t, t[x].lft, t[x].rgt)
    ensures y in Pruned(t, x)
    ensures Valid(Moved(t, x, y))
  {
    PrunedValid(t, x);
    SubtreeBlock(t, x);
    MovedIntoValid(Pruned(t, x), Subtree(t, x), y, x);
  }
}
