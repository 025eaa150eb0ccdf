/** `ORDER BY key, id` over sets of row ids, and the list operations the services use on the result. */
module Ordering {

  /** Row `a` comes before row `b` when ordered by `key`, then by id. */
  predicate Before(key: map<int, int>, a: int, b: int)
    requires a in key && b in key
  {
    key[a] < key[b] || (key[a] == key[b] && a < b)
  }

  ghost predicate Ordered(ids: seq<int>, key: map<int, int>)
    requires forall id :: id in ids ==> id in key
  {
    forall i, j :: 0 <= i < j < |ids| ==> Before(key, ids[i], ids[j])
  }

  ghost predicate Distinct(ids: seq<int>) {
    ids == [] || (ids[|ids| - 1] !in ids[..|ids| - 1] && Distinct(ids[..|ids| - 1]))
  }

  /** The same for any elements, as a plain comparison of all pairs. */
  predicate NoRepeats<T(==)>(s: seq<T>) {
    forall i, j :: 0 <= i < j < |s| ==> s[i] != s[j]
  }

  lemma {:induction false} DistinctAt(ids: seq<int>, k: nat)
    requires Distinct(ids) && k < |ids|
    ensures ids[k] !in ids[..k]
  {
    if k >= |ids| - 1 {
    } else {
      DistinctAt(ids[..|ids| - 1], k);
      assert ids[..|ids| - 1][..k] == ids[..k];
    }
  }

  lemma DistinctPair(ids: seq<int>, a: nat, b: nat)
    requires Distinct(ids) && a < b < |ids|
    ensures ids[a] != ids[b]
  {
    DistinctAt(ids, b);
    assert ids[a] in ids[..b];
  }

  lemma OnePlace(ids: seq<int>, a: int, b: int)
    requires Distinct(ids) && 0 <= a < |ids| && 0 <= b < |ids| && ids[a] == ids[b]
    ensures a == b
  {
    if a < b {
      DistinctPair(ids, a, b);
    } else if b < a {
      DistinctPair(ids, b, a);
    }
  }

  lemma {:induction false} DistinctIfNew(ids: seq<int>)
    requires forall k :: 0 <= k < |ids| ==> ids[k] !in ids[..k]
    ensures Distinct(ids)
  {
    if ids == [] {
    } else {
      var front := ids[..|ids| - 1];
      forall k | 0 <= k < |front| ensures front[k] !in front[..k] {
        assert front[..k] == ids[..k] && front[k] == ids[k];
      }
      DistinctIfNew(front);
    }
  }

  lemma {:induction false} SetOfDistinct(ids: seq<int>)
    requires Distinct(ids)
    ensures |(set t | t in ids)| == |ids|
  {
    if ids == [] {
    } else {
      var front, last := ids[..|ids| - 1], ids[|ids| - 1];
      SetOfDistinct(front);
      assert (set t | t in ids) == (set t | t in front) + {last};
    }
  }

  lemma {:induction false} DistinctPrefix(ids: seq<int>, k: nat)
    requires Distinct(ids) && k <= |ids|
    ensures Distinct(ids[..k])
    decreases |ids|
  {
    if k == |ids| {
      assert ids[..k] == ids;
    } else {
      DistinctPrefix(ids[..|ids| - 1], k);
      assert ids[..|ids| - 1][..k] == ids[..k];
    }
  }

  lemma EmptyOrInhabited(ids: set<int>)
    ensures ids == {} || exists x :: x in ids
  {
    if !exists x :: x in ids {
      assert ids == {};
    }
  }

  lemma {:induction false} FirstExists(ids: set<int>, key: map<int, int>)
    requires ids != {} && ids <= key.Keys
    ensures exists m :: m in ids && forall x :: x in ids && x != m ==> Before(key, m, x)
  {
    EmptyOrInhabited(ids);
    var x :| x in ids;
    if ids == {x} {
      assert forall y :: y in ids ==> y == x;
    } else {
      var rest := ids - {x};
      assert rest != {};
      FirstExists(rest, key);
      var m :| m in rest && forall y :: y in rest && y != m ==> Before(key, m, y);
      var first := if Before(key, m, x) then m else x;
      assert forall y :: y in ids && y != first ==> y in rest || y == x;
      assert forall y :: y in ids && y != first ==> Before(key, first, y);
    }
  }

  function First(ids: set<int>, key: map<int, int>): (m: int)
    requires ids != {} && ids <= key.Keys
    ensures m in ids && forall x :: x in ids && x != m ==> Before(key, m, x)
  {
    FirstExists(ids, key);
    var m :| m in ids && forall x :: x in ids && x != m ==> Before(key, m, x);
    m
  }

  /** The ids in ascending `(key, id)` order. */
  function OrderBy(ids: set<int>, key: map<int, int>): (r: seq<int>)
    requires ids <= key.Keys
    ensures forall x :: x in r <==> x in ids
    ensures |r| == |ids|
    decreases ids
  {
    if ids == {} then []
    else
      var m := First(ids, key);
      [m] + OrderBy(ids - {m}, key)
  }

  lemma {:induction false} OrderByOrders(ids: set<int>, key: map<int, int>)
    requires ids <= key.Keys
    ensures Ordered(OrderBy(ids, key), key)
    decreases ids
  {
    if ids == {} {
    } else {
      var m := First(ids, key);
      OrderByOrders(ids - {m}, key);
      var r := OrderBy(ids - {m}, key);
      forall j | 0 <= j < |r| ensures Before(key, m, r[j]) {
        assert r[j] in r;
      }
    }
  }

  function Self(ids: set<int>): map<int, int> {
    map x | x in ids :: x
  }

  /** `ORDER BY id`. */
  function ById(ids: set<int>): (r: seq<int>)
    ensures forall x :: x in r <==> x in ids
    ensures |r| == |ids|
  {
    OrderBy(ids, Self(ids))
  }

  ghost predicate Climbs(ids: seq<int>) {
    forall i, j :: 0 <= i < j < |ids| ==> ids[i] < ids[j]
  }

  lemma ByIdClimbs(ids: set<int>)
    ensures Climbs(ById(ids)) && Distinct(ById(ids))
  {
    var r, key := ById(ids), Self(ids);
    OrderByOrders(ids, key);
    forall i, j | 0 <= i < j < |r| ensures r[i] < r[j] {
      assert r[i] in r && r[j] in r;
      assert Before(key, r[i], r[j]);
    }
    ClimbsIsDistinct(r);
  }

  lemma ByIdDistinct(ids: set<int>)
    ensures Distinct(ById(ids))
  {
    ByIdClimbs(ids);
  }

  lemma ClimbsIsDistinct(ids: seq<int>)
    requires Climbs(ids)
    ensures Distinct(ids)
  {
    forall k | 0 <= k < |ids| ensures ids[k] !in ids[..k] {
      assert forall i :: 0 <= i < k ==> ids[..k][i] < ids[k];
    }
    DistinctIfNew(ids);
  }

  /** The elements of `ids` that are in `keep`, in order. */
  function Filter(ids: seq<int>, keep: set<int>): (r: seq<int>)
    ensures forall x :: x in r <==> x in ids && x in keep
    ensures |r| <= |ids|
  {
    if ids == [] then []
    else
      var r := Filter(ids[..|ids| - 1], keep);
      var last := ids[|ids| - 1];
      assert ids == ids[..|ids| - 1] + [last];
      if last in keep then r + [last] else r
  }

  lemma FilterNone(ids: seq<int>, keep: set<int>)
    ensures Filter(ids[..0], keep) == []
  {
  }

  lemma FilterStep(ids: seq<int>, keep: set<int>, i: nat)
    requires i < |ids|
    ensures Filter(ids[..i + 1], keep) == if ids[i] in keep then Filter(ids[..i], keep) + [ids[i]]
                                          else Filter(ids[..i], keep)
  {
    assert ids[..i + 1][..i] == ids[..i];
  }

  lemma {:induction false} FilterOrdered(ids: seq<int>, keep: set<int>, key: map<int, int>)
    requires forall id :: id in ids ==> id in key
    requires Ordered(ids, key)
    ensures Ordered(Filter(ids, keep), key)
  {
    if ids == [] {
    } else {
      var front, last := ids[..|ids| - 1], ids[|ids| - 1];
      FilterOrdered(front, keep, key);
      var r := Filter(front, keep);
      forall i | 0 <= i < |r| ensures Before(key, r[i], last) {
        assert r[i] in front;
        var k :| 0 <= k < |front| && front[k] == r[i];
        assert ids[k] == r[i];
      }
    }
  }

  lemma OrderedIsDistinct(ids: seq<int>, key: map<int, int>)
    requires forall id :: id in ids ==> id in key
    requires Ordered(ids, key)
    ensures Distinct(ids)
  {
    forall k | 0 <= k < |ids| ensures ids[k] !in ids[..k] {
      forall i | 0 <= i < k ensures ids[..k][i] != ids[k] {
        assert Before(key, ids[i], ids[k]);
      }
    }
    DistinctIfNew(ids);
  }

  // ------------------------------------------------------- rows changed in order ---

  predicate AllIn<T>(ids: seq<int>, rows: map<int, T>) {
    forall i :: 0 <= i < |ids| ==> ids[i] in rows
  }

  /** A table after the first `k` of `ids` were marked, the i-th of them (from 0) by `mark(i, row)`. */
  function Marked<T>(rows: map<int, T>, ids: seq<int>, mark: (nat, T) -> T, k: nat): (r: map<int, T>)
    ensures r.Keys == rows.Keys
  {
    if k == 0 || k > |ids| then rows
    else
      var before, id := Marked(rows, ids, mark, k - 1), ids[k - 1];
      if id in before then before[id := mark(k - 1, before[id])] else before
  }

  /** When the ids are distinct, each row is marked once, in its own turn; other rows stay. */
  lemma {:induction false} MarkedAt<T>(rows: map<int, T>, ids: seq<int>, mark: (nat, T) -> T, k: nat, id: int)
    requires k <= |ids| && Distinct(ids) && id in rows
    ensures forall i :: 0 <= i < k && ids[i] == id ==> Marked(rows, ids, mark, k)[id] == mark(i, rows[id])
    ensures id !in ids[..k] ==> Marked(rows, ids, mark, k)[id] == rows[id]
  {
    if k == 0 {
    } else {
      MarkedAt(rows, ids, mark, k - 1, id);
      assert ids[..k] == ids[..k - 1] + [ids[k - 1]];
      DistinctAt(ids, k - 1);
    }
  }

  /** A row is as it was until its own turn. */
  lemma BeforeItsTurn<T>(rows: map<int, T>, ids: seq<int>, mark: (nat, T) -> T, k: nat)
    requires k < |ids| && Distinct(ids) && ids[k] in rows
    ensures Marked(rows, ids, mark, k)[ids[k]] == rows[ids[k]]
  {
    MarkedAt(rows, ids, mark, k, ids[k]);
    DistinctAt(ids, k);
  }
}
