/** Server-side pagination of the list handlers: `page` and `limit` query
    parameters, `skip = (page - 1) * limit`, a `skip`/`limit` cursor window
    and `totalPages = Math.ceil(total / limit)`. */
module Paging {
  import opened Common

  const DefaultPage: int := 1
  const DefaultLimit: int := 10

  datatype PageQuery = PageQuery(page: int, limit: int)

  /** `parseInt(searchParams.get(k) || default)`: an absent (or empty)
      parameter takes its default; a present one arrives already parsed. */
  function QueryOf(page: Option<int>, limit: Option<int>): (q: PageQuery)
    ensures page.None? ==> q.page == 1
    ensures limit.None? ==> q.limit == 10
    ensures page.Some? ==> q.page == page.value
    ensures limit.Some? ==> q.limit == limit.value
  {
    PageQuery(page.GetOr(DefaultPage), limit.GetOr(DefaultLimit))
  }

  function Skip(q: PageQuery): int {
    (q.page - 1) * q.limit
  }

  function Min(a: int, b: int): int {
    if a <= b then a else b
  }

  function Abs(a: int): nat {
    if a < 0 then -a else a
  }

  /** Ceiling of n / d for a positive divisor. */
  function CeilDiv(n: nat, d: nat): (r: nat)
    requires d > 0
    ensures r * d >= n
    ensures r > 0 ==> (r - 1) * d < n
  {
    var q := n / d;
    if n % d == 0 then q else q + 1
  }

  /** `Math.ceil(total / limit)` as the JSON envelope carries it: a zero
      limit gives Infinity or NaN, which serialise as `null` (None). */
  function TotalPages(total: nat, limit: int): Option<int> {
    if limit > 0 then Some(CeilDiv(total, limit))
    else if limit == 0 then None
    else Some(-(total / -limit))
  }

  /** The documents a `skip(skip).limit(limit)` cursor yields: at most
      `limit` of them (`limit(0)` means no limit, a negative limit the same
      count as its absolute value), starting at position `skip`. */
  function Window<X>(s: seq<X>, skip: nat, limit: int): (r: seq<X>)
    ensures limit != 0 ==> |r| <= Abs(limit)
    ensures skip >= |s| ==> r == []
    ensures skip < |s| ==> |r| == (if limit == 0 then |s| - skip else Min(Abs(limit), |s| - skip))
    ensures forall k :: 0 <= k < |r| ==> skip + k < |s| && r[k] == s[skip + k]
  {
    if skip >= |s| then []
    else if limit == 0 then s[skip..]
    else s[skip..Min(skip + Abs(limit), |s|)]
  }

  datatype Pagination = Pagination(total: nat, page: int, limit: int, totalPages: Option<int>)

  /** A list handler's answer for the collection `s` in the order it is read:
      a negative skip is refused by the store (500). */
  function ListPage<X>(s: seq<X>, q: PageQuery): (r: Response<(seq<X>, Pagination)>)
    ensures Skip(q) < 0 <==> r == Fail(ServerError)
    ensures r.Ok? ==> r.data.0 == Window(s, Skip(q), q.limit)
    ensures r.Ok? ==> r.data.1 == Pagination(|s|, q.page, q.limit, TotalPages(|s|, q.limit))
  {
    var skip := Skip(q);
    if skip < 0 then Fail(ServerError)
    else Ok((Window(s, skip, q.limit), Pagination(|s|, q.page, q.limit, TotalPages(|s|, q.limit))))
  }

  /** The window of page p (counting from 1) with a positive page size. */
  function PageOf<X>(s: seq<X>, limit: nat, p: nat): seq<X>
    requires limit > 0 && p >= 1
  {
    Window(s, (p - 1) * limit, limit)
  }

  /** Pages 1 to n, concatenated. */
  function Pages<X>(s: seq<X>, limit: nat, n: nat): seq<X>
    requires limit > 0
  {
    if n == 0 then [] else Pages(s, limit, n - 1) + PageOf(s, limit, n)
  }

  /** The window at `skip` continues the prefix that ends there. */
  lemma WindowExtends<X>(s: seq<X>, skip: nat, limit: nat)
    requires limit > 0
    ensures s[..Min(skip, |s|)] + Window(s, skip, limit) == s[..Min(skip + limit, |s|)]
  {
    if skip < |s| {
      var hi := Min(skip + limit, |s|);
      assert Window(s, skip, limit) == s[skip..hi];
      assert s[..skip] + s[skip..hi] == s[..hi];
    }
  }

  lemma {:induction false} PagesArePrefix<X>(s: seq<X>, limit: nat, n: nat)
    requires limit > 0
    ensures Pages(s, limit, n) == s[..Min(n * limit, |s|)]
  {
    if n > 0 {
      PagesArePrefix(s, limit, n - 1);
      var a := (n - 1) * limit;
      assert a + limit == n * limit;
      WindowExtends(s, a, limit);
    }
  }

  /** Pages 1 to totalPages, read one after the other, give back the whole
      list in order; so every document is on exactly one page. */
  lemma PagesReconstruct<X>(s: seq<X>, limit: nat)
    requires limit > 0
    ensures TotalPages(|s|, limit).Some?
    ensures Pages(s, limit, TotalPages(|s|, limit).value) == s
  {
    var n := CeilDiv(|s|, limit);
    PagesArePrefix(s, limit, n);
    assert s[..|s|] == s;
  }

  /** The last page holds the remainder `total % limit`, or a full page when
      the limit divides the total. */
  lemma LastPageSize<X>(s: seq<X>, limit: nat)
    requires limit > 0 && |s| > 0
    ensures TotalPages(|s|, limit).Some? && TotalPages(|s|, limit).value >= 1
    ensures |PageOf(s, limit, TotalPages(|s|, limit).value)|
            == if |s| % limit == 0 then limit else |s| % limit
  {
    var n := |s|;
    var q, rem := n / limit, n % limit;
    assert n == q * limit + rem;
    var tp := CeilDiv(n, limit);
    if rem == 0 {
      assert tp == q && q >= 1;
      assert (tp - 1) * limit == n - limit;
    } else {
      assert tp == q + 1;
      assert (tp - 1) * limit == n - rem;
    }
  }

  /** A page never holds more than `limit` documents, and holds exactly
      `limit` when it is not the last page. */
  lemma PageBound<X>(s: seq<X>, limit: nat, p: nat)
    requires limit > 0 && 1 <= p
    ensures |PageOf(s, limit, p)| <= limit
    ensures p * limit <= |s| ==> |PageOf(s, limit, p)| == limit
  {
    assert (p - 1) * limit + limit == p * limit;
  }
}
