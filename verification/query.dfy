/** The two query-builder steps the controllers share: `orderBy(column, 'desc')`
    and `paginate(n)`. A database returns rows of equal sort key in an
    unspecified order, so an ordering is specified by "sorted and a permutation". */
module Query {

  /** `where(condition)`: the rows that satisfy the condition, in table order. */
  function Where<T>(xs: seq<T>, keep: T -> bool): (r: seq<T>)
    ensures forall x | x in r :: x in xs && keep(x)
    ensures forall x | x in xs && keep(x) :: x in r
    ensures multiset(r) <= multiset(xs)
    ensures |r| <= |xs|
  {
    if xs == [] then []
    else
      var init := xs[..|xs| - 1];
      var last := xs[|xs| - 1];
      assert xs == init + [last];
      if keep(last) then Where(init, keep) + [last] else Where(init, keep)
  }

  predicate SortedDesc<T>(xs: seq<T>, key: T -> int) {
    forall i, j :: 0 <= i < j < |xs| ==> key(xs[i]) >= key(xs[j])
  }

  predicate SortedAsc<T>(xs: seq<T>, key: T -> int) {
    forall i, j :: 0 <= i < j < |xs| ==> key(xs[i]) <= key(xs[j])
  }

  function InsertDesc<T(==)>(x: T, xs: seq<T>, key: T -> int): (r: seq<T>)
    requires SortedDesc(xs, key)
    ensures SortedDesc(r, key)
    ensures multiset(r) == multiset(xs) + multiset{x}
  {
    if xs == [] || key(x) >= key(xs[0]) then [x] + xs
    else
      var tail := InsertDesc(x, xs[1..], key);
      assert xs == [xs[0]] + xs[1..];
      var head := xs[0];
      assert forall i :: 0 <= i < |tail| ==> key(head) >= key(tail[i]) by {
        forall i | 0 <= i < |tail| ensures key(head) >= key(tail[i]) {
          assert tail[i] in multiset(xs[1..]) + multiset{x};
          if tail[i] != x { assert tail[i] in xs[1..]; }
        }
      }
      ConsSortedDesc(head, tail, key);
      [head] + tail
  }

  lemma ConsSortedDesc<T>(head: T, tail: seq<T>, key: T -> int)
    requires SortedDesc(tail, key)
    requires forall i :: 0 <= i < |tail| ==> key(head) >= key(tail[i])
    ensures SortedDesc([head] + tail, key)
  {
    var r := [head] + tail;
    forall i, j | 0 <= i < j < |r| ensures key(r[i]) >= key(r[j]) {
      assert r[j] == tail[j - 1];
      if i > 0 { assert r[i] == tail[i - 1]; }
    }
  }

  /** `orderBy(key, 'desc')`: the rows, newest (largest key) first. */
  function SortDesc<T(==)>(xs: seq<T>, key: T -> int): (r: seq<T>)
    ensures SortedDesc(r, key)
    ensures multiset(r) == multiset(xs)
  {
    if xs == [] then []
    else
      var init := xs[..|xs| - 1];
      assert xs == init + [xs[|xs| - 1]];
      InsertDesc(xs[|xs| - 1], SortDesc(init, key), key)
  }

  /** `orderBy(key)` / `orderBy(key, 'asc')`: the rows, smallest key first. */
  function SortAsc<T(==)>(xs: seq<T>, key: T -> int): (r: seq<T>)
    ensures SortedAsc(r, key)
    ensures multiset(r) == multiset(xs)
  {
    var r := SortDesc(xs, x => -key(x));
    assert forall i, j :: 0 <= i < j < |r| ==> -key(r[i]) >= -key(r[j]);
    r
  }

  /** The page number `paginate` uses: the requested one when it is at least 1, else 1. */
  function CurrentPage(requested: int): (p: int)
    ensures p >= 1
    ensures requested >= 1 ==> p == requested
  {
    if requested >= 1 then requested else 1
  }

  /** The index of a page's first row: `(page - 1) * perPage`. */
  function PageStart(page: int, perPage: nat): nat {
    (CurrentPage(page) - 1) * perPage
  }

  /** `paginate(perPage)`: the `perPage` rows starting at row (page - 1) * perPage. */
  function Paginate<T>(xs: seq<T>, page: int, perPage: nat): (r: seq<T>)
    requires perPage > 0
    ensures |r| <= perPage
    ensures PageStart(page, perPage) >= |xs| ==> r == []
    ensures PageStart(page, perPage) < |xs| ==>
      |r| == (if |xs| - PageStart(page, perPage) < perPage then |xs| - PageStart(page, perPage) else perPage)
    ensures forall i :: 0 <= i < |r| ==> PageStart(page, perPage) + i < |xs| && r[i] == xs[PageStart(page, perPage) + i]
    ensures forall x | x in r :: x in xs
  {
    var lo := PageStart(page, perPage);
    if lo >= |xs| then []
    else if |xs| - lo < perPage then xs[lo..]
    else xs[lo..lo + perPage]
  }
}
