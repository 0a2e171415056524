/** `PUT /api/qna/views?id=`: the store-level `$inc: {views: 1}` on one post. */
module QnaViews {
  import opened Common
  import opened Store
  import opened Qna

  /** A post with `n` more views. */
  function Viewed(d: Doc<Post>, n: nat): (r: Doc<Post>)
    ensures r.body.views == d.body.views + n
  {
    d.(body := d.body.(views := d.body.views + n))
  }

  /** `updateOne({_id: id}, {$inc: {views: 1}})`, and the 404 when it
      matched nothing. */
  function Bump(docs: seq<Doc<Post>>, id: ObjectId): (seq<Doc<Post>>, Response<()>) {
    match IndexOf(docs, id)
    case None => (docs, Fail(NotFound))
    case Some(i) => (docs[i := Viewed(docs[i], 1)], Ok(()))
  }

  /** The collection and answer after one view-increment request. */
  function Increment(docs: seq<Doc<Post>>, rawId: Option<string>): (seq<Doc<Post>>, Response<()>) {
    match QueryObjectId(rawId)
    case Fail(s) => (docs, Fail(s))
    case Ok(id) => Bump(docs, id)
  }

  /** A missing id is a 400 and an unparsable one a 500, an id matching no
      post a 404, all without a change; otherwise exactly the matched post's
      views go up by one, and every other field and post is kept. */
  lemma IncrementOutcome(docs: seq<Doc<Post>>, rawId: Option<string>)
    ensures var r := Increment(docs, rawId);
      && (QueryObjectId(rawId).Fail? ==> r == (docs, Fail(QueryObjectId(rawId).status)))
      && (QueryObjectId(rawId).Ok? && !HasId(docs, QueryObjectId(rawId).data) ==> r == (docs, Fail(NotFound)))
      && (QueryObjectId(rawId).Ok? && HasId(docs, QueryObjectId(rawId).data) ==>
            var i := IndexOf(docs, QueryObjectId(rawId).data).value;
            && r.1 == Ok(())
            && |r.0| == |docs|
            && r.0[i].body.views == docs[i].body.views + 1
            && r.0[i] == docs[i].(body := docs[i].body.(views := docs[i].body.views + 1))
            && forall k :: 0 <= k < |docs| && k != i ==> r.0[k] == docs[k])
  {
  }

  method IncrementViews(c: Collection<Post>, rawId: Option<string>) returns (r: Response<()>)
    requires c.Valid()
    modifies c
    ensures c.Valid()
    ensures (c.docs, r) == Increment(old(c.docs), rawId)
  {
    var q := QueryObjectId(rawId);
    if q.Fail? {
      return Fail(q.status);
    }
    var found := c.FindOne(IdIs(q.data));
    if found.None? {
      return Fail(NotFound);
    }
    var d := c.docs[found.value];
    c.SetAt(found.value, d.createdAt, d.body.(views := d.body.views + 1));
    return Ok(());
  }

  /** n requests in a row for the same post, each with an id text that
      parses to `id`. */
  function Repeat(docs: seq<Doc<Post>>, id: ObjectId, n: nat): seq<Doc<Post>>
    decreases n
  {
    if n == 0 then docs else Bump(Repeat(docs, id, n - 1), id).0
  }

  /** One more request after n - 1 of them. */
  lemma RepeatStep(docs: seq<Doc<Post>>, id: ObjectId, i: nat, n: nat)
    requires n > 0 && IndexOf(docs, id) == Some(i)
    requires Repeat(docs, id, n - 1) == docs[i := Viewed(docs[i], n - 1)]
    ensures Repeat(docs, id, n) == docs[i := Viewed(docs[i], n)]
  {
    var prev := Repeat(docs, id, n - 1);
    assert Bump(prev, id).0 == prev[i := Viewed(prev[i], 1)] by {
      IndexOfKept(docs, prev, id, i);
    }
    assert Viewed(prev[i], 1) == Viewed(docs[i], n);
  }

  /** n successful view requests on a post raise its views by exactly n and
      change nothing else, in that post or in any other. */
  lemma {:induction false} RepeatAddsN(docs: seq<Doc<Post>>, id: ObjectId, n: nat)
    requires HasId(docs, id)
    ensures var i := IndexOf(docs, id).value;
      Repeat(docs, id, n) == docs[i := Viewed(docs[i], n)]
    decreases n
  {
    var i := IndexOf(docs, id).value;
    if n == 0 {
      assert Viewed(docs[i], 0) == docs[i];
    } else {
      RepeatAddsN(docs, id, n - 1);
      RepeatStep(docs, id, i, n);
    }
  }
}
