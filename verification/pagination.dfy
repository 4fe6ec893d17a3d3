/** The pages in which bookings and contracts are listed. */
module Pagination {

  /** The page and limit that a query asks for, once clamped. Text that is no number has been read as zero. */
  function ParsePageLimit(page: int, limit: int): (r: (nat, nat))
    ensures 1 <= r.0 && 1 <= r.1 <= 100
    ensures page >= 1 ==> r.0 == page
    ensures page < 1 ==> r.0 == 1
    ensures r.1 == limit <==> 1 <= limit <= 100
    ensures r.1 != limit ==> r.1 == 20
  {
    (if page < 1 then 1 else page, if limit < 1 || limit > 100 then 20 else limit)
  }

  function TotalPages(total: nat, limit: nat): nat
    requires limit > 0
  {
    var pages := (total + limit - 1) / limit;
    if pages < 1 then 1 else pages
  }

  /** `OFFSET (page - 1) * limit LIMIT limit`. */
  function Page<T>(rows: seq<T>, page: nat, limit: nat): seq<T>
    requires page > 0
  {
    RowsFrom(rows, (page - 1) * limit, limit)
  }

  function RowsFrom<T>(rows: seq<T>, offset: nat, limit: nat): seq<T> {
    if offset >= |rows| then [] else if offset + limit >= |rows| then rows[offset..] else rows[offset..offset + limit]
  }

  /** The first `n` pages, one after another. */
  function Pages<T>(rows: seq<T>, n: nat, limit: nat): seq<T> {
    if n == 0 then [] else Pages(rows, n - 1, limit) + Page(rows, n, limit)
  }

  lemma {:induction false} PagesArePrefix<T>(rows: seq<T>, n: nat, limit: nat)
    ensures Pages(rows, n, limit) == FirstRows(rows, n * limit)
  {
    if n == 0 {
      assert n * limit == 0;
    } else {
      hide FirstRows, RowsFrom;
      PagesArePrefix(rows, n - 1, limit);
      OnePageMore(rows, (n - 1) * limit, limit);
      assert n * limit == (n - 1) * limit + limit;
    }
  }

  function FirstRows<T>(rows: seq<T>, k: nat): seq<T> {
    if k < |rows| then rows[..k] else rows
  }

  lemma OnePageMore<T>(rows: seq<T>, offset: nat, limit: nat)
    ensures FirstRows(rows, offset) + RowsFrom(rows, offset, limit) == FirstRows(rows, offset + limit)
  {
  }

  /** The total number of pages is the least, and at least one, that shows every row; and each row is on one page. */
  lemma PagesTile<T>(rows: seq<T>, page: int, limit: int)
    ensures var l := ParsePageLimit(page, limit).1;
            var pages := TotalPages(|rows|, l);
            && Pages(rows, pages, l) == rows
            && (forall n: nat :: n < pages && rows != [] ==> |Pages(rows, n, l)| < |rows|)
  {
    var l := ParsePageLimit(page, limit).1;
    var pages := TotalPages(|rows|, l);
    hide TotalPages, Pages;
    AllPagesShow(rows, l);
    forall n: nat | n < pages && rows != []
      ensures |Pages(rows, n, l)| < |rows|
    {
      FewerPagesMiss(rows, n, l);
    }
  }

  lemma FewerPagesMiss<T>(rows: seq<T>, n: nat, limit: nat)
    requires limit > 0 && rows != [] && n < TotalPages(|rows|, limit)
    ensures |Pages(rows, n, limit)| < |rows|
  {
    PagesArePrefix(rows, n, limit);
    Quotient(|rows|, limit);
    if n > 0 {
      Scale(n, (|rows| + limit - 1) / limit - 1, limit);
    } else {
      assert n * limit == 0;
    }
  }

  lemma AllPagesShow<T>(rows: seq<T>, limit: nat)
    requires limit > 0
    ensures Pages(rows, TotalPages(|rows|, limit), limit) == rows
  {
    PagesArePrefix(rows, TotalPages(|rows|, limit), limit);
    Quotient(|rows|, limit);
    Scale((|rows| + limit - 1) / limit, TotalPages(|rows|, limit), limit);
  }

  lemma Quotient(total: nat, limit: nat)
    requires limit > 0
    ensures var q := (total + limit - 1) / limit;
            q * limit >= total && (q > 0 ==> (q - 1) * limit < total)
  {
    var q, r := (total + limit - 1) / limit, (total + limit - 1) % limit;
    assert total + limit - 1 == q * limit + r;
    assert (q - 1) * limit == q * limit - limit;
  }

  lemma Scale(x: nat, y: nat, z: nat)
    requires x <= y
    ensures x * z <= y * z
  {
    assert y * z == x * z + (y - x) * z;
  }
}
