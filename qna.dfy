/** The Q&A board (`/api/qna`): posts listed newest first in pages, created
    with no views and no replies, edited in three fields, deleted by id. */
module Qna {
  import opened Common
  import opened Store
  import opened Paging
  import Listing

  datatype Reply = Reply(content: string, writer: string, createdAt: Timestamp)

  datatype Post = Post(title: string, content: string, writer: string, views: int, replies: seq<Reply>)

  /** The three fields a client writes. */
  datatype PostInput = PostInput(title: string, content: string, writer: string)

  /** A `PUT` body: the post's `_id` (absent or text) and its new fields. */
  datatype PostEdit = PostEdit(id: Option<string>, fields: PostInput)

  /** `GET`: the page `q` of the posts, newest first. */
  function List(docs: seq<Doc<Post>>, q: PageQuery): Response<(seq<Doc<Post>>, Pagination)> {
    Listing.NewestPage(docs, q)
  }

  /** The document `POST` inserts: the given fields, zero views, no replies. */
  function NewPost(input: PostInput, id: ObjectId, now: Timestamp): (d: Doc<Post>)
    ensures d.id == id && d.createdAt == now
    ensures d.body.views == 0 && d.body.replies == []
    ensures d.body.title == input.title && d.body.content == input.content && d.body.writer == input.writer
  {
    Doc(id, now, Post(input.title, input.content, input.writer, 0, []))
  }

  /** `$set` of `title`, `content` and `writer`: views and replies are kept. */
  function Edited(p: Post, e: PostInput): (r: Post)
    ensures r.title == e.title && r.content == e.content && r.writer == e.writer
    ensures r.views == p.views && r.replies == p.replies
  {
    p.(title := e.title, content := e.content, writer := e.writer)
  }

  /** `POST`: inserts the new post under the driver-generated id and answers
      with it. */
  method Create(c: Collection<Post>, input: PostInput, newId: ObjectId, now: Timestamp) returns (r: Response<Doc<Post>>)
    requires c.Valid()
    modifies c
    ensures c.Valid()
    ensures HasId(old(c.docs), newId) ==> r == Fail(ServerError) && c.docs == old(c.docs)
    ensures !HasId(old(c.docs), newId) ==>
      r == Ok(NewPost(input, newId, now)) && c.docs == old(c.docs) + [NewPost(input, newId, now)]
  {
    var d := NewPost(input, newId, now);
    var ok := c.InsertOne(d.id, d.createdAt, d.body);
    if !ok {
      return Fail(ServerError);
    }
    return Ok(d);
  }

  /** `PUT`: an id matching no post is a 404 and nothing changes; otherwise
      only the matched post's three fields change. */
  method Update(c: Collection<Post>, e: PostEdit) returns (r: Response<(Option<string>, PostInput)>)
    requires c.Valid()
    modifies c
    ensures c.Valid()
    ensures BodyIdRef(e.id).None? ==> r == Fail(ServerError) && c.docs == old(c.docs)
    ensures BodyIdRef(e.id).Some? && Target(old(c.docs), BodyIdRef(e.id).value).None? ==>
      r == Fail(NotFound) && c.docs == old(c.docs)
    ensures BodyIdRef(e.id).Some? && Target(old(c.docs), BodyIdRef(e.id).value).Some? ==>
      var i := Target(old(c.docs), BodyIdRef(e.id).value).value;
      && r == Ok((e.id, e.fields))
      && c.docs == old(c.docs)[i := old(c.docs)[i].(body := Edited(old(c.docs)[i].body, e.fields))]
  {
    var ref := BodyIdRef(e.id);
    if ref.None? {
      return Fail(ServerError);
    }
    var i := Target(c.docs, ref.value);
    if i.None? {
      return Fail(NotFound);
    }
    var old_ := c.docs[i.value];
    c.SetAt(i.value, old_.createdAt, Edited(old_.body, e.fields));
    return Ok((e.id, e.fields));
  }

  /** `DELETE ?id=`: 400 without an id, 404 when nothing was deleted. */
  method Delete(c: Collection<Post>, rawId: Option<string>) returns (r: Response<()>)
    requires c.Valid()
    modifies c
    ensures c.Valid()
    ensures QueryObjectId(rawId).Fail? ==> r == Fail(QueryObjectId(rawId).status) && c.docs == old(c.docs)
    ensures QueryObjectId(rawId).Ok? ==>
      var id := QueryObjectId(rawId).data;
      if HasId(old(c.docs), id) then r == Ok(()) && c.docs == RemoveAt(old(c.docs), IndexOf(old(c.docs), id).value)
      else r == Fail(NotFound) && c.docs == old(c.docs)
  {
    var q := QueryObjectId(rawId);
    if q.Fail? {
      return Fail(q.status);
    }
    var deleted := c.DeleteById(q.data);
    if !deleted {
      return Fail(NotFound);
    }
    return Ok(());
  }
}
