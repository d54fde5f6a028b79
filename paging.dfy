/**
 * Page arithmetic shared by the catalog query and the client cache: the page
 * count `Math.ceil(total / limit)`, JavaScript's `Array.prototype.slice`, and
 * a store's `skip`/`take` window.
 */
module Paging {
  import opened Common

  /**
   * `Math.ceil(total / limit)`. A zero limit divides to `Infinity` or `NaN`,
   * which the JSON reply shows as `null`: `None` here.
   */
  function PageCount(total: nat, limit: int): (r: Option<int>)
    ensures r.None? <==> limit == 0
  {
    if limit == 0 then None
    else Some(-(-(total as real / limit as real)).Floor)
  }

  /** With a positive limit, the page count is the least number of pages that hold every row. */
  lemma PageCountSpec(total: nat, limit: int)
    requires limit > 0
    ensures var p := PageCount(total, limit).value;
      && p >= 0
      && total <= p * limit
      && (p > 0 ==> (p - 1) * limit < total)
  {
    var q := total as real / limit as real;
    var p := PageCount(total, limit).value;
    assert p as real >= q && (p - 1) as real < q;
    assert q * limit as real == total as real;
    assert total as real <= p as real * limit as real by {
      assert (p as real - q) * limit as real >= 0.0;
    }
    assert (p - 1) as real * limit as real < total as real by {
      assert (q - (p - 1) as real) * limit as real > 0.0;
    }
  }

  /** A `slice` bound: a negative one counts from the end; both are clamped to `[0, n]`. */
  function SliceIndex(k: int, n: nat): (r: nat)
    ensures r <= n
  {
    if k < 0 then Max(n + k, 0) else Min(k, n)
  }

  /** `s.slice(start, end)` */
  function Slice<T>(s: seq<T>, start: int, end: int): (r: seq<T>)
    ensures |r| <= |s|
    ensures forall x :: x in r ==> x in s
  {
    var from, to := SliceIndex(start, |s|), SliceIndex(end, |s|);
    if from < to then s[from..to] else []
  }

  /**
   * A store query's `skip`/`take` window. A negative `skip` is refused
   * (`None`); a negative `take` takes from the end, after skipping `skip`
   * rows from the end.
   */
  function SkipTake<T>(s: seq<T>, skip: int, take: int): (r: Option<seq<T>>)
    ensures r.None? <==> skip < 0
    ensures r.Some? ==> |r.value| <= (if take >= 0 then take else -take)
    ensures r.Some? ==> forall x :: x in r.value ==> x in s
  {
    if skip < 0 then None
    else if take >= 0 then Some(s[Min(skip, |s|)..Min(skip + take, |s|)])
    else
      var hi := |s| - Min(skip, |s|);
      Some(s[Max(hi + take, 0)..hi])
  }

  /**
   * For page `page >= 1` of `limit >= 1` rows, the client's slice and the
   * store's window agree: both hold the rows from `(page-1)*limit` on, at
   * most `limit` of them, and all of them unless the rows run out.
   */
  lemma PageWindow<T>(s: seq<T>, page: int, limit: int)
    requires page >= 1 && limit >= 1
    ensures var start := (page - 1) * limit;
      var w := Slice(s, start, page * limit);
      && SkipTake(s, start, limit) == Some(w)
      && |w| == Min(limit, Max(|s| - start, 0))
      && forall j :: 0 <= j < |w| ==> w[j] == s[start + j]
  {
    PageBounds(page, limit);
  }

  /** The two bounds of page `page`, as linear facts. */
  lemma PageBounds(page: int, limit: int)
    requires page >= 1 && limit >= 1
    ensures (page - 1) * limit >= 0
    ensures page * limit == (page - 1) * limit + limit
  {
  }

  /**
   * Every row is on exactly the page its index says: row `i` is at position
   * `i % limit` of page `i / limit + 1`, and that page is within the page count.
   */
  lemma RowOnPage<T>(s: seq<T>, limit: int, i: int)
    requires limit >= 1 && 0 <= i < |s|
    ensures var page := i / limit + 1;
      && 1 <= page <= PageCount(|s|, limit).value
      && i % limit < |Slice(s, (page - 1) * limit, page * limit)|
      && Slice(s, (page - 1) * limit, page * limit)[i % limit] == s[i]
  {
    var page := i / limit + 1;
    var p := PageCount(|s|, limit).value;
    PageCountSpec(|s|, limit);
    PageWindow(s, page, limit);
    assert (page - 1) * limit + i % limit == i;
    assert page <= p by {
      if page > p {
        MulMonotone(p, page - 1, limit);
      }
    }
  }

  lemma MulMonotone(a: int, b: int, c: int)
    requires a <= b && c >= 0
    ensures a * c <= b * c
  {
  }
}
