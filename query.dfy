/** The read side of the persistence gateway, independent of the entity:
    listing parameters, ordering by a sort key, the skip/take window,
    the page count, and the sum aggregate. */
module Query {
  import opened Wrappers

  const DefaultPage := 1
  const DefaultLimit := 10

  /** The `page`, `limit` and `search` query parameters, any of which may be
      missing. */
  datatype PageQuery = PageQuery(page: Option<int>, limit: Option<int>, search: Option<string>) {

    function Page(): int { page.GetOr(DefaultPage) }

    function Limit(): int { limit.GetOr(DefaultLimit) }

    function Search(): string { search.GetOr("") }

    /** Pages and limits below 1 are outside the model (the source would
        compute a negative skip or divide by zero). */
    predicate WellFormed() { Page() >= 1 && Limit() >= 1 }

    /** `(page - 1) * limit` rows are skipped. */
    function Skip(): (n: nat)
      requires WellFormed()
      ensures n == (Page() - 1) * Limit()
    {
      MulNonNegative(Page() - 1, Limit());
      (Page() - 1) * Limit()
    }
  }

  /** The query for page `page` of `limit` rows. */
  lemma SkipOf(page: int, limit: int, search: string)
    requires page >= 1 && limit >= 1
    ensures var q := PageQuery(Some(page), Some(limit), Some(search));
      q.WellFormed() && q.Page() == page && q.Limit() == limit && q.Search() == search
      && q.Skip() == (page - 1) * limit
  {
  }

  /** The `pagination` block of a listing response. */
  datatype Pagination = Pagination(page: int, limit: int, total: nat, pages: nat)

  lemma MulNonNegative(a: nat, b: nat)
    ensures a * b >= 0
  {
  }

  // ---- ordering ------------------------------------------------------------

  /** `x` may be listed before `y` when rows are ordered by the sort key `k`
      descending. The order of rows with equal keys is not fixed by the
      source; the model lists the smaller id first. */
  predicate Before(k: map<int, int>, x: int, y: int)
    requires x in k && y in k
  {
    k[x] > k[y] || (k[x] == k[y] && x <= y)
  }

  lemma NonEmpty(ids: set<int>)
    requires ids != {}
    ensures exists x :: x in ids
  {
    if forall x :: x !in ids {
      assert false;
    }
  }

  lemma {:induction false} FirstExists(k: map<int, int>, ids: set<int>)
    requires ids != {} && ids <= k.Keys
    ensures exists x :: x in ids && forall y :: y in ids ==> Before(k, x, y)
    decreases ids
  {
    NonEmpty(ids);
    var z :| z in ids;
    var rest := ids - {z};
    if rest == {} {
      assert ids == {z};
      assert forall y :: y in ids ==> Before(k, z, y);
    } else {
      FirstExists(k, rest);
      var x :| x in rest && forall y :: y in rest ==> Before(k, x, y);
      if Before(k, x, z) {
        assert forall y :: y in ids ==> Before(k, x, y);
      } else {
        forall y | y in ids ensures Before(k, z, y) {
          if y != z {
            assert y in rest;
            assert Before(k, x, y);
          }
        }
      }
    }
  }

  /** The row that comes first among `ids`. */
  function First(k: map<int, int>, ids: set<int>): (x: int)
    requires ids != {} && ids <= k.Keys
    ensures x in ids && forall y :: y in ids ==> Before(k, x, y)
  {
    FirstExists(k, ids);
    var x :| x in ids && forall y {:trigger y in ids} :: y in ids ==> Before(k, x, y);
    x
  }

  /** The rows `ids`, each exactly once, ordered by the key descending. */
  function Ordered(k: map<int, int>, ids: set<int>): (r: seq<int>)
    requires ids <= k.Keys
    ensures |r| == |ids|
    ensures forall i :: 0 <= i < |r| ==> r[i] in ids
    ensures forall x :: x in ids ==> x in r
    ensures forall i, j :: 0 <= i < j < |r| ==> r[i] != r[j]
    ensures forall i, j :: 0 <= i < j < |r| ==> Before(k, r[i], r[j])
    decreases ids
  {
    if ids == {} then []
    else
      var x := First(k, ids);
      [x] + Ordered(k, ids - {x})
  }

  /** All rows of `k` (id to sort key) ordered by the key descending, as an
      `orderBy: { key: 'desc' }` query returns them. */
  function OrderDesc(k: map<int, int>): (r: seq<int>)
    ensures |r| == |k|
    ensures forall i :: 0 <= i < |r| ==> r[i] in k
    ensures forall x :: x in k ==> x in r
    ensures forall i, j :: 0 <= i < j < |r| ==> r[i] != r[j]
    ensures forall i, j :: 0 <= i < j < |r| ==> k[r[i]] >= k[r[j]]
  {
    var r := Ordered(k, k.Keys);
    assert |k| == |k.Keys|;
    forall i, j | 0 <= i < j < |r| ensures k[r[i]] >= k[r[j]] {
      assert Before(k, r[i], r[j]);
    }
    r
  }

  /** No two rows share a sort key. */
  predicate DistinctKeys(k: map<int, int>)
  {
    forall x, y :: x in k && y in k && x != y ==> k[x] != k[y]
  }

  /** `r` lists every row of `k` exactly once with non-increasing keys: any
      order a store may return for `orderBy: { key: 'desc' }`. */
  predicate SortedDesc(k: map<int, int>, r: seq<int>)
  {
    && (forall i :: 0 <= i < |r| ==> r[i] in k)
    && (forall x :: x in k ==> x in r)
    && (forall i, j :: 0 <= i < j < |r| ==> r[i] != r[j])
    && (forall i, j :: 0 <= i < j < |r| ==> k[r[i]] >= k[r[j]])
  }

  /** With distinct keys the descending order is unique: whatever order
      the store returns is `OrderDesc(k)`, so separate queries for
      separate pages cut their windows from one and the same sequence. */
  lemma OrderIsUnique(k: map<int, int>, r: seq<int>)
    requires DistinctKeys(k) && SortedDesc(k, r)
    ensures r == OrderDesc(k)
  {
    var o := OrderDesc(k);
    SameOrder(k, r, o);
  }

  /** Two descending lists of the same rows, without repeats and with
      distinct keys, are equal. */
  lemma {:induction false} SameOrder(k: map<int, int>, r1: seq<int>, r2: seq<int>)
    requires DistinctKeys(k)
    requires forall i :: 0 <= i < |r1| ==> r1[i] in k
    requires forall i :: 0 <= i < |r2| ==> r2[i] in k
    requires forall i, j :: 0 <= i < j < |r1| ==> r1[i] != r1[j]
    requires forall i, j :: 0 <= i < j < |r2| ==> r2[i] != r2[j]
    requires forall i, j :: 0 <= i < j < |r1| ==> k[r1[i]] >= k[r1[j]]
    requires forall i, j :: 0 <= i < j < |r2| ==> k[r2[i]] >= k[r2[j]]
    requires forall i :: 0 <= i < |r1| ==> r1[i] in r2
    requires forall i :: 0 <= i < |r2| ==> r2[i] in r1
    ensures r1 == r2
    decreases |r1|, 1
  {
    if r1 != [] {
      assert r1[0] in r2;
      HeadsAgree(k, r1, r2);
      TailsAgree(k, r1, r2);
      assert r1 == [r1[0]] + r1[1..] && r2 == [r2[0]] + r2[1..];
    } else if r2 != [] {
      assert false;
    }
  }

  /** Once the heads agree, so do the tails. */
  lemma {:induction false} TailsAgree(k: map<int, int>, r1: seq<int>, r2: seq<int>)
    requires DistinctKeys(k) && |r1| > 0 && |r2| > 0 && r1[0] == r2[0]
    requires forall i :: 0 <= i < |r1| ==> r1[i] in k
    requires forall i :: 0 <= i < |r2| ==> r2[i] in k
    requires forall i, j :: 0 <= i < j < |r1| ==> r1[i] != r1[j]
    requires forall i, j :: 0 <= i < j < |r2| ==> r2[i] != r2[j]
    requires forall i, j :: 0 <= i < j < |r1| ==> k[r1[i]] >= k[r1[j]]
    requires forall i, j :: 0 <= i < j < |r2| ==> k[r2[i]] >= k[r2[j]]
    requires forall i :: 0 <= i < |r1| ==> r1[i] in r2
    requires forall i :: 0 <= i < |r2| ==> r2[i] in r1
    ensures r1[1..] == r2[1..]
    decreases |r1|, 0
  {
    forall i | 0 <= i < |r1| - 1 ensures r1[1..][i] in r2[1..] {
      assert r1[i + 1] != r1[0];
      TailMembers(r2, r1[i + 1]);
    }
    forall i | 0 <= i < |r2| - 1 ensures r2[1..][i] in r1[1..] {
      assert r2[i + 1] != r2[0];
      TailMembers(r1, r2[i + 1]);
    }
    SameOrder(k, r1[1..], r2[1..]);
  }

  /** Two descending lists of the same rows with distinct keys start with
      the same row. */
  lemma HeadsAgree(k: map<int, int>, r1: seq<int>, r2: seq<int>)
    requires DistinctKeys(k) && |r1| > 0 && |r2| > 0
    requires forall i :: 0 <= i < |r1| ==> r1[i] in k
    requires forall i :: 0 <= i < |r2| ==> r2[i] in k
    requires r1[0] in r2 && r2[0] in r1
    requires forall i, j :: 0 <= i < j < |r1| ==> k[r1[i]] >= k[r1[j]]
    requires forall i, j :: 0 <= i < j < |r2| ==> k[r2[i]] >= k[r2[j]]
    ensures r1[0] == r2[0]
  {
    var a, b := r1[0], r2[0];
    var p :| 0 <= p < |r1| && r1[p] == b;
    assert p == 0 || k[r1[0]] >= k[r1[p]];
    var q :| 0 <= q < |r2| && r2[q] == a;
    assert q == 0 || k[r2[0]] >= k[r2[q]];
  }

  /** In a list without repeats, the tail holds every row but the head. */
  lemma TailMembers(r: seq<int>, x: int)
    requires |r| > 0 && forall i, j :: 0 <= i < j < |r| ==> r[i] != r[j]
    ensures x in r[1..] <==> x in r && x != r[0]
  {
    if x in r[1..] {
      var i :| 0 <= i < |r| - 1 && r[1..][i] == x;
      assert r[i + 1] == x;
    }
    if x in r && x != r[0] {
      var i :| 0 <= i < |r| && r[i] == x;
      assert r[1..][i - 1] == x;
    }
  }

  // ---- skip / take ---------------------------------------------------------

  /** The first `n` rows of the order are the top `n` keys: a row left out
      has a key no greater than the last row kept. */
  lemma PrefixHoldsTop(k: map<int, int>, n: nat, x: int)
    requires 0 < n <= |k| && x in k && x !in OrderDesc(k)[..n]
    ensures k[x] <= k[OrderDesc(k)[n - 1]]
  {
    var r := OrderDesc(k);
    var p :| 0 <= p < |r| && r[p] == x;
    assert p >= n;
    assert k[r[n - 1]] >= k[r[p]];
  }

  /** The `skip`/`take` window of an ordered result. */
  function Window<T>(s: seq<T>, skip: nat, take: nat): (r: seq<T>)
    ensures |r| <= take
    ensures |r| == if skip >= |s| then 0 else if |s| - skip < take then |s| - skip else take
    ensures |r| > 0 ==> skip + |r| <= |s|
    ensures forall i :: 0 <= i < |r| ==> r[i] == s[skip + i]
  {
    if skip >= |s| then []
    else if |s| - skip < take then s[skip..]
    else s[skip..skip + take]
  }

  /** `Math.ceil(total / limit)`: the least number of pages of `limit` rows
      that hold `total` rows. */
  function PageCount(total: nat, limit: int): (pages: nat)
    requires limit >= 1
    ensures pages * limit >= total
    ensures pages == 0 || (pages - 1) * limit < total
  {
    CeilDiv(total, limit)
  }

  lemma {:induction false} CeilBounds(total: nat, limit: int)
    requires limit >= 1
    ensures (total + limit - 1) / limit >= 0
    ensures ((total + limit - 1) / limit) * limit >= total
    ensures (total + limit - 1) / limit == 0 || ((total + limit - 1) / limit - 1) * limit < total
  {
    var n := total + limit - 1;
    var q, r := n / limit, n % limit;
    assert n == q * limit + r && 0 <= r < limit;
    assert q * limit == n - r;
    assert (q - 1) * limit == n - r - limit;
  }

  function CeilDiv(total: nat, limit: int): (pages: nat)
    requires limit >= 1
    ensures pages * limit >= total
    ensures pages == 0 || (pages - 1) * limit < total
  {
    CeilBounds(total, limit);
    (total + limit - 1) / limit
  }

  /** The page and the position on it of the row at position `j`. */
  lemma PositionOnPage(n: nat, limit: int, j: int) returns (page: int, i: int)
    requires limit >= 1 && 0 <= j < n
    ensures 1 <= page <= PageCount(n, limit)
    ensures 0 <= i < limit && (page - 1) * limit + i == j
  {
    page, i := j / limit + 1, j % limit;
    assert j == (j / limit) * limit + i;
    var pages := PageCount(n, limit);
    if page > pages {
      MulMonotone(pages, j / limit, limit);
      assert false;
    }
  }

  /** The page and the position on it of row `j` of `s`. */
  lemma PlaceOnPage<T>(s: seq<T>, limit: int, j: int) returns (page: int, i: int)
    requires limit >= 1 && 0 <= j < |s|
    ensures 1 <= page <= PageCount(|s|, limit)
    ensures 0 <= i < limit && 0 <= (page - 1) * limit + i < |s| && s[(page - 1) * limit + i] == s[j]
  {
    page, i := PositionOnPage(|s|, limit, j);
  }

  lemma MulMonotone(a: nat, b: nat, c: nat)
    requires a <= b
    ensures a * c <= b * c
  {
  }

  /** The row `id` is on page `page` of the ordered result `r`. */
  predicate OnPage(r: seq<int>, page: int, limit: int, id: int)
    requires page >= 1 && limit >= 1
  {
    MulNonNegative(page - 1, limit);
    id in Window(r, (page - 1) * limit, limit)
  }

  lemma OnPageAt(r: seq<int>, page: int, limit: int, i: int)
    requires page >= 1 && 0 <= i < limit && 0 <= (page - 1) * limit + i < |r|
    ensures OnPage(r, page, limit, r[(page - 1) * limit + i])
  {
    assert Window(r, (page - 1) * limit, limit)[i] == r[(page - 1) * limit + i];
  }

  /** A page past the last one is empty. */
  lemma {:induction false} PagesPastTheEndAreEmpty<T>(s: seq<T>, limit: int, page: int)
    requires limit >= 1 && page > PageCount(|s|, limit)
    ensures (page - 1) * limit >= 0
    ensures Window(s, (page - 1) * limit, limit) == []
  {
    var pages := PageCount(|s|, limit);
    MulMonotone(pages, page - 1, limit);
  }

  // ---- sum aggregate ------------------------------------------------------

  function MinKey(ids: set<int>): (x: int)
    requires ids != {}
    ensures x in ids && forall y :: y in ids ==> x <= y
  {
    MinExists(ids);
    var x :| x in ids && forall y {:trigger y in ids} :: y in ids ==> x <= y;
    x
  }

  lemma {:induction false} MinExists(ids: set<int>)
    requires ids != {}
    ensures exists x :: x in ids && forall y :: y in ids ==> x <= y
    decreases ids
  {
    NonEmpty(ids);
    var z :| z in ids;
    var rest := ids - {z};
    if rest == {} {
      assert ids == {z};
    } else {
      MinExists(rest);
      var x :| x in rest && forall y :: y in rest ==> x <= y;
      var m := if x > z then z else x;
      forall y | y in ids ensures m <= y {
        if y != z { assert y in rest; }
      }
      assert m in ids;
    }
  }

  /** The sum of the values of `m`, or 0 when `m` is empty. */
  function Sum(m: map<int, real>): real
    decreases |m|
  {
    if m == map[] then 0.0
    else
      var x := MinKey(m.Keys);
      assert |m - {x}| < |m| by { RemoveShrinks(m, x); }
      m[x] + Sum(m - {x})
  }

  lemma RemoveShrinks(m: map<int, real>, x: int)
    requires x in m
    ensures |m - {x}| == |m| - 1
  {
    assert (m - {x}).Keys == m.Keys - {x};
    assert |m.Keys - {x}| == |m.Keys| - 1;
  }

  /** The sum does not depend on the order rows are added up in: taking any
      row out first gives the same total. */
  lemma {:induction false} SumRemove(m: map<int, real>, x: int)
    requires x in m
    ensures Sum(m) == m[x] + Sum(m - {x})
    decreases |m|
  {
    var x0 := MinKey(m.Keys);
    if x != x0 {
      RemoveShrinks(m, x0);
      var m0 := m - {x0};
      SumRemove(m0, x);
      assert x0 in m - {x};
      assert m - {x} != map[];
      assert MinKey((m - {x}).Keys) == x0;
      assert (m - {x}) - {x0} == m0 - {x};
    }
  }

  /** Adding a row with a fresh id adds its value to the sum. */
  lemma SumInsert(m: map<int, real>, x: int, v: real)
    requires x !in m
    ensures Sum(m[x := v]) == Sum(m) + v
  {
    SumRemove(m[x := v], x);
    assert m[x := v] - {x} == m;
  }

  /** Replacing the value of an existing row changes the sum by the
      difference. */
  lemma SumReplace(m: map<int, real>, x: int, v: real)
    requires x in m
    ensures Sum(m[x := v]) == Sum(m) - m[x] + v
  {
    SumRemove(m, x);
    SumRemove(m[x := v], x);
    assert m[x := v] - {x} == m - {x};
  }

  lemma SumEmpty()
    ensures Sum(map[]) == 0.0
  {
  }
}
