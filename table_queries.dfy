/**
 * The SELECT statements the backends issue against the tree table: a WHERE
 * clause applied to the rows in store order, and an ORDER BY on `lft`.
 */
module TableQueries {
  import opened Wrappers
  import opened TreeTable

  /** The WHERE clauses of the backends' reads. */
  datatype Where =
    | LftBetween(lo: int, hi: int)   // `lft BETWEEN lo AND hi`
    | ContainsLft(v: int)            // `v BETWEEN lft AND rgt`
    | ParentIs(pid: Option<Id>)      // `pid = ?`

  predicate Matches(w: Where, r: Row) {
    match w
    case LftBetween(lo, hi) => lo <= r.lft <= hi
    case ContainsLft(v) => r.lft <= v <= r.rgt
    case ParentIs(p) => r.pid == p
  }

  /** Every id of `s` has a row in `t`. */
  predicate AllIn(t: map<Id, Row>, s: seq<Id>) {
    forall i :: 0 <= i < |s| ==> s[i] in t
  }

  /** `s` is `u` with some entries left out: its ids occur in `u` in the same order. */
  predicate Subsequence(s: seq<Id>, u: seq<Id>)
    decreases |u|
  {
    s == [] || (u != [] && ((s[0] == u[0] && Subsequence(s[1..], u[1..])) || Subsequence(s, u[1..])))
  }

  /** The ids of `ids` whose rows satisfy `w`, in the order of `ids`. */
  function Select(t: map<Id, Row>, ids: seq<Id>, w: Where): (s: seq<Id>)
    requires AllIn(t, ids)
    ensures AllIn(t, s) && |s| <= |ids|
    ensures forall a :: a in s <==> a in ids && Matches(w, t[a])
    ensures Subsequence(s, ids)
    ensures NoDups(ids) ==> NoDups(s)
  {
    if ids == [] then []
    else
      var rest := Select(t, ids[1..], w);
      if Matches(w, t[ids[0]]) then [ids[0]] + rest else rest
  }

  /** The rows of `s` have ascending `lft`. */
  predicate LftSorted(t: map<Id, Row>, s: seq<Id>)
    requires AllIn(t, s)
  {
    forall i, j :: 0 <= i < j < |s| ==> t[s[i]].lft <= t[s[j]].lft
  }

  /** `a` put into the `lft`-sorted `s` before the first row with a larger or equal `lft`. */
  function InsertByLft(t: map<Id, Row>, a: Id, s: seq<Id>): (r: seq<Id>)
    requires a in t && AllIn(t, s) && LftSorted(t, s)
    ensures AllIn(t, r) && |r| == |s| + 1
    ensures multiset(r) == multiset(s) + multiset{a}
  {
    if s == [] then [a]
    else if t[a].lft <= t[s[0]].lft then [a] + s
    else
      assert s == [s[0]] + s[1..];
      [s[0]] + InsertByLft(t, a, s[1..])
  }

  /** Insertion keeps the order by `lft`. */
  lemma {:induction false} InsertKeepsSorted(t: map<Id, Row>, a: Id, s: seq<Id>)
    requires a in t && AllIn(t, s) && LftSorted(t, s)
    ensures LftSorted(t, InsertByLft(t, a, s))
  {
    if s != [] && t[a].lft > t[s[0]].lft {
      var rest := InsertByLft(t, a, s[1..]);
      InsertKeepsSorted(t, a, s[1..]);
      forall j | 0 <= j < |rest| ensures t[s[0]].lft <= t[rest[j]].lft {
        assert rest[j] in multiset(rest);
        assert rest[j] == a || rest[j] in multiset(s[1..]);
      }
    }
  }

  /** `ORDER BY lft`: `s` sorted by ascending `lft`. */
  function SortByLft(t: map<Id, Row>, s: seq<Id>): (r: seq<Id>)
    requires AllIn(t, s)
    ensures AllIn(t, r) && LftSorted(t, r) && |r| == |s|
    ensures multiset(r) == multiset(s)
    ensures forall b :: b in r <==> b in s
  {
    if s == [] then []
    else
      assert s == [s[0]] + s[1..];
      var rest := SortByLft(t, s[1..]);
      InsertKeepsSorted(t, s[0], rest);
      var r := InsertByLft(t, s[0], rest);
      assert forall b :: b in r <==> b in multiset(r);
      r
  }

  /** A permutation of a sequence without duplicates has none. */
  lemma PermutationNoDups(s: seq<Id>, r: seq<Id>)
    requires multiset(r) == multiset(s) && NoDups(s)
    ensures NoDups(r)
  {
    forall i, j | 0 <= i < j < |r| ensures r[i] != r[j] {
      if r[i] == r[j] {
        var m := multiset(r[..i]) + multiset{r[i]} + multiset{r[j]};
        assert r == r[..i] + [r[i]] + r[i + 1..j] + [r[j]] + r[j + 1..];
        assert multiset(r)[r[i]] >= 2;
        NoDupsCount(s, r[i]);
      }
    }
  }

  /** In a sequence without duplicates, every id occurs at most once. */
  lemma {:induction false} NoDupsCount(s: seq<Id>, a: Id)
    requires NoDups(s)
    ensures multiset(s)[a] <= 1
  {
    if s != [] {
      assert s == [s[0]] + s[1..];
      NoDupsCount(s[1..], a);
      if s[0] == a {
        assert a !in s[1..];
      }
    }
  }

  /** The sequence backwards: `ORDER BY ... DESC` of an ascending order. */
  function Reversed(s: seq<Id>): (r: seq<Id>)
    ensures |r| == |s| && forall i :: 0 <= i < |s| ==> r[i] == s[|s| - 1 - i]
  {
    if s == [] then [] else Reversed(s[1..]) + [s[0]]
  }

  /** The ids occurring in `s`. */
  function Elems(s: seq<Id>): (e: set<Id>)
    ensures forall a :: a in e <==> a in s
  {
    set a | a in s
  }

  /** The number of distinct ids in a sequence without duplicates is its length. */
  lemma {:induction false} NoDupsCard(s: seq<Id>)
    requires NoDups(s)
    ensures |Elems(s)| == |s|
  {
    if s != [] {
      NoDupsCard(s[1..]);
      assert s[0] !in Elems(s[1..]);
      assert Elems(s) == Elems(s[1..]) + {s[0]};
    }
  }

  /** A list without duplicates drawn from `k` is no longer than `k` is large. */
  lemma CardBound(s: seq<Id>, k: set<Id>)
    requires NoDups(s) && forall i :: 0 <= i < |s| ==> s[i] in k
    ensures |s| <= |k|
  {
    NoDupsCard(s);
    var e := Elems(s);
    assert k == e + (k - e);
  }

  /** Store order lists every id once. */
  lemma StoreOrderNoDups(tb: Table)
    ensures AllIn(tb.rows, StoreOrder(tb)) && NoDups(StoreOrder(tb))
  {
  }
}
