/** The paginated, newest-first list that the maintenance and Q&A `GET`
    handlers answer with: `find({}).sort({createdAt: -1}).skip(skip).limit(limit)`. */
module Listing {
  import opened Common
  import opened Store
  import opened Paging

  function NewestPage<T>(docs: seq<Doc<T>>, q: PageQuery): (r: Response<(seq<Doc<T>>, Pagination)>)
    ensures Skip(q) < 0 <==> r == Fail(ServerError)
    ensures r.Ok? ==> r.data.0 == Window(SortNewestFirst(docs), Skip(q), q.limit)
    ensures r.Ok? ==> NewestFirst(r.data.0)
    ensures r.Ok? ==> forall k :: 0 <= k < |r.data.0| ==> r.data.0[k] in docs
    ensures r.Ok? && q.limit != 0 ==> |r.data.0| <= Abs(q.limit)
    ensures r.Ok? ==> r.data.1 == Pagination(|docs|, q.page, q.limit, TotalPages(|docs|, q.limit))
  {
    var sorted := SortNewestFirst(docs);
    var r := ListPage(sorted, q);
    if r.Ok? then
      WindowNewestFirst(sorted, Skip(q), q.limit);
      WindowFromDocs(docs, sorted, Skip(q), q.limit);
      r
    else r
  }

  /** A window of a newest-first sequence is newest first. */
  lemma WindowNewestFirst<T>(sorted: seq<Doc<T>>, skip: nat, limit: int)
    requires NewestFirst(sorted)
    ensures NewestFirst(Window(sorted, skip, limit))
  {
    var w := Window(sorted, skip, limit);
    forall i, j | 0 <= i < j < |w|
      ensures w[i].createdAt >= w[j].createdAt
    {
      assert w[i] == sorted[skip + i] && w[j] == sorted[skip + j];
    }
  }

  /** Every document of a window of a rearrangement of `docs` is one of
      `docs`. */
  lemma WindowFromDocs<T>(docs: seq<Doc<T>>, sorted: seq<Doc<T>>, skip: nat, limit: int)
    requires multiset(sorted) == multiset(docs)
    ensures forall k :: 0 <= k < |Window(sorted, skip, limit)| ==> Window(sorted, skip, limit)[k] in docs
  {
    var w := Window(sorted, skip, limit);
    forall k | 0 <= k < |w|
      ensures w[k] in docs
    {
      assert w[k] == sorted[skip + k];
      assert sorted[skip + k] in multiset(sorted);
    }
  }

  /** Reading every page of the newest-first list gives each document once,
      newest first. */
  lemma NewestPagesReconstruct<T>(docs: seq<Doc<T>>, limit: nat)
    requires limit > 0
    ensures TotalPages(|docs|, limit).Some?
    ensures var all := Pages(SortNewestFirst(docs), limit, TotalPages(|docs|, limit).value);
      NewestFirst(all) && multiset(all) == multiset(docs)
  {
    PagesReconstruct(SortNewestFirst(docs), limit);
  }
}
