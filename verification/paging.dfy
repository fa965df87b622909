/** List paging.  The services turn `page` and `limit` into an offset and
    report `totalPages`; the repositories turn `skip` and `take` into the
    window the query returns, never more than 100 rows.  Indices are
    positions in the full, ordered result of a list query. */
module Paging {
  import opened Common

  const DefaultPage: int := 1
  const DefaultLimit: int := 20

  /** The repositories' `take` default and ceiling. */
  const DefaultTake: int := 20
  const MaxTake: int := 100

  lemma DivideBounds(a: int, b: int, q: int)
    requires b > 0 && (q - 1) * b < a <= q * b
    ensures (q - 1) as real < a as real / b as real <= q as real
  {
    var x := a as real / b as real;
    assert x * b as real == a as real;
    assert ((q - 1) * b) as real == (q - 1) as real * b as real;
    assert (q * b) as real == q as real * b as real;
  }

  /** `Math.ceil(a / b)` over exact arithmetic: the least integer not below
      the quotient. */
  function CeilDiv(a: int, b: int): (r: int)
    requires b != 0
    ensures (r - 1) as real < a as real / b as real <= r as real
    ensures b > 0 ==> (r - 1) * b < a <= r * b
    decreases if b < 0 then 1 else 0
  {
    if b > 0 then
      var q := (a + b - 1) / b;
      assert (q - 1) * b < a <= q * b;
      DivideBounds(a, b, q);
      q
    else
      assert (-a) as real / (-b) as real == a as real / b as real;
      CeilDiv(-a, -b)
  }

  /** What `getInvoices` and `getOrders` compute from the query string:
      `page || 1`, `limit || 20` and the offset `(page - 1) * limit`. */
  datatype ListQuery = ListQuery(page: int, limit: int, skip: int)

  function ServiceQuery(page: Option<int>, limit: Option<int>): (q: ListQuery)
    ensures q.page != 0 && q.limit != 0
    ensures page.Some? && page.value != 0 ==> q.page == page.value
    ensures limit.Some? && limit.value != 0 ==> q.limit == limit.value
  {
    var p := OrInt(page, DefaultPage);
    var l := OrInt(limit, DefaultLimit);
    ListQuery(p, l, (p - 1) * l)
  }

  /** The next page starts where the previous one was meant to end. */
  lemma NextPageFollows(p: int, limit: Option<int>)
    requires p >= 1
    ensures ServiceQuery(Some(p + 1), limit).skip ==
            ServiceQuery(Some(p), limit).skip + ServiceQuery(Some(p), limit).limit
  {
    var l := OrInt(limit, DefaultLimit);
    assert p * l == (p - 1) * l + l;
  }

  /** The `pagination` object of a list response. */
  datatype Pagination = Pagination(total: int, page: int, perPage: int, totalPages: int)

  function Report(total: nat, q: ListQuery): (r: Pagination)
    requires q.limit != 0
    ensures r.total == total && r.page == q.page && r.perPage == q.limit
    ensures q.limit > 0 ==> (r.totalPages - 1) * q.limit < total <= r.totalPages * q.limit
  {
    Pagination(total, q.page, q.limit, CeilDiv(total, q.limit))
  }

  /** A positive total and page size: the last item falls on the last
      reported page, and the page after it starts past the end. */
  lemma LastPageHoldsLastItem(total: nat, limit: Option<int>)
    requires total > 0 && OrInt(limit, DefaultLimit) > 0
    ensures var q := ServiceQuery(None, limit);
      var n := Report(total, q).totalPages;
      && n >= 1
      && ServiceQuery(Some(n), limit).skip <= total - 1 < ServiceQuery(Some(n), limit).skip + q.limit
      && ServiceQuery(Some(n + 1), limit).skip >= total
  {
    var q := ServiceQuery(None, limit);
    var n := Report(total, q).totalPages;
    NextPageFollows(n, limit);
  }

  /** The rows a query returns, as a range of positions. */
  datatype Window = Window(skip: int, take: int)

  predicate Shows(w: Window, i: int) { w.skip <= i < w.skip + w.take }

  /** The repositories' `skip: options.skip || 0` and
      `take: Math.min(options.take || 20, 100)`. */
  function RepositoryWindow(skip: Option<int>, take: Option<int>): (w: Window)
    ensures w.take <= MaxTake
    ensures w.skip == OrInt(skip, 0)
    ensures take.Some? && take.value != 0 ==> w.take == Min(take.value, MaxTake)
    ensures (take.None? || take.value == 0) ==> w.take == DefaultTake
  {
    Window(OrInt(skip, 0), Min(OrInt(take, DefaultTake), MaxTake))
  }

  /** A window fed back as its own request is unchanged. */
  lemma WindowIdempotent(skip: Option<int>, take: Option<int>)
    ensures var w := RepositoryWindow(skip, take);
      RepositoryWindow(Some(w.skip), Some(w.take)) == w
  {
  }

  /** Position `i` is on page `page` as the service asks for it: its offset
      and limit go to the repository, which caps the limit. */
  predicate Listed(page: Option<int>, limit: Option<int>, i: int)
  {
    var q := ServiceQuery(page, limit);
    Shows(RepositoryWindow(Some(q.skip), Some(q.limit)), i)
  }

  /** With a limit above 100, the offsets step by the limit but each window
      holds only 100 rows: position 100 is on no page at all, although the
      report counts pages of the full limit. */
  lemma {:induction false} LargeLimitSkipsRows(limit: int, page: int)
    requires limit > MaxTake && page >= 1
    ensures !Listed(Some(page), Some(limit), MaxTake)
  {
    var q := ServiceQuery(Some(page), Some(limit));
    if page > 1 {
      assert (page - 1) * limit >= limit by {
        assert (page - 1) * limit == (page - 2) * limit + limit;
        assert (page - 2) * limit >= 0;
      }
    }
  }

  /** The offset as it should be computed: with the page size the
      repository honours, so that the offset, the rows and the report
      agree. */
  function CappedServiceQuery(page: Option<int>, limit: Option<int>): (q: ListQuery)
    ensures q.page != 0 && q.limit != 0 && q.limit <= MaxTake
    ensures q.skip == (q.page - 1) * q.limit
    ensures q.limit == Min(ServiceQuery(page, limit).limit, MaxTake)
  {
    var p := OrInt(page, DefaultPage);
    var l := Min(OrInt(limit, DefaultLimit), MaxTake);
    ListQuery(p, l, (p - 1) * l)
  }

  predicate ListedCapped(page: Option<int>, limit: Option<int>, i: int)
  {
    var q := CappedServiceQuery(page, limit);
    Shows(RepositoryWindow(Some(q.skip), Some(q.limit)), i)
  }

  lemma MulMonotone(a: int, b: int, l: int)
    requires l > 0 && a <= b
    ensures a * l <= b * l
  {
    assert b * l == a * l + (b - a) * l;
  }

  /** Two pages of `l` rows that both hold position `i` are the same page. */
  lemma SamePage(i: int, l: int, k1: int, k2: int)
    requires l > 0
    requires k1 * l <= i < k1 * l + l && k2 * l <= i < k2 * l + l
    ensures k1 == k2
  {
    if k1 < k2 {
      MulMonotone(k1 + 1, k2, l);
    } else if k2 < k1 {
      MulMonotone(k2 + 1, k1, l);
    }
  }

  lemma ListedCappedAt(p: int, limit: Option<int>, i: int)
    requires p >= 1 && OrInt(limit, DefaultLimit) >= 1
    ensures var l := CappedServiceQuery(None, limit).limit;
      ListedCapped(Some(p), limit, i) <==> (p - 1) * l <= i < (p - 1) * l + l
  {
  }

  /** Position `i` is on page `i / l + 1`, which is one of the reported pages. */
  lemma RowOnItsPage(total: nat, limit: Option<int>, i: int)
    requires OrInt(limit, DefaultLimit) >= 1 && 0 <= i < total
    ensures var l := CappedServiceQuery(None, limit).limit;
      && 1 <= i / l + 1 <= Report(total, CappedServiceQuery(None, limit)).totalPages
      && ListedCapped(Some(i / l + 1), limit, i)
  {
    var l := CappedServiceQuery(None, limit).limit;
    PageWithinCount(total, l, Report(total, CappedServiceQuery(None, limit)).totalPages, i);
    ListedCappedAt(i / l + 1, limit, i);
  }

  lemma PageWithinCount(total: int, l: int, n: int, i: int)
    requires l > 0 && total <= n * l && 0 <= i < total
    ensures i / l * l <= i < i / l * l + l
    ensures 1 <= i / l + 1 <= n
  {
    var k := i / l;
    if k + 1 > n {
      MulMonotone(n, k, l);
    }
  }

  /** No other page holds position `i`. */
  lemma RowOnlyOnItsPage(limit: Option<int>, i: int, p: int)
    requires OrInt(limit, DefaultLimit) >= 1 && 0 <= i
    requires p >= 1 && ListedCapped(Some(p), limit, i)
    ensures p == i / CappedServiceQuery(None, limit).limit + 1
  {
    var l := CappedServiceQuery(None, limit).limit;
    var k := i / l;
    assert k * l <= i < k * l + l;
    ListedCappedAt(p, limit, i);
    SamePage(i, l, p - 1, k);
  }

  /** With the capped limit every position below the total is on exactly
      one of the reported pages. */
  lemma {:induction false} EveryRowOnOnePage(total: nat, limit: Option<int>, i: int)
    requires OrInt(limit, DefaultLimit) >= 1 && 0 <= i < total
    ensures var l := CappedServiceQuery(None, limit).limit;
      && 1 <= i / l + 1 <= Report(total, CappedServiceQuery(None, limit)).totalPages
      && ListedCapped(Some(i / l + 1), limit, i)
    ensures forall p :: p >= 1 && ListedCapped(Some(p), limit, i) ==>
      p == i / CappedServiceQuery(None, limit).limit + 1
  {
    RowOnItsPage(total, limit, i);
    forall p | p >= 1 && ListedCapped(Some(p), limit, i)
      ensures p == i / CappedServiceQuery(None, limit).limit + 1
    {
      RowOnlyOnItsPage(limit, i, p);
    }
  }
}
