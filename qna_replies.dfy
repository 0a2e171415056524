/** `POST /api/qna/replies`: `$push` of a reply onto the matching post. */
module QnaReplies {
  import opened Common
  import opened Store
  import opened Qna

  datatype ReplyRequest = ReplyRequest(qnaId: Option<string>, content: string, writer: string)

  /** The post with one more reply at the end; its earlier replies keep
      their content and order, and its other fields are unchanged. */
  function Pushed(p: Post, reply: Reply): (r: Post)
    ensures |r.replies| == |p.replies| + 1
    ensures r.replies[..|p.replies|] == p.replies && r.replies[|p.replies|] == reply
    ensures r.title == p.title && r.content == p.content && r.writer == p.writer && r.views == p.views
  {
    p.(replies := p.replies + [reply])
  }

  /** A `qnaId` that matches no post is a 404 and nothing changes; on a match
      the reply `{content, writer, createdAt}` is appended to that post alone
      and is what the response carries. */
  method AddReply(c: Collection<Post>, req: ReplyRequest, now: Timestamp) returns (r: Response<Reply>)
    requires c.Valid()
    modifies c
    ensures c.Valid()
    ensures BodyIdRef(req.qnaId).None? ==> r == Fail(ServerError) && c.docs == old(c.docs)
    ensures BodyIdRef(req.qnaId).Some? && Target(old(c.docs), BodyIdRef(req.qnaId).value).None? ==>
      r == Fail(NotFound) && c.docs == old(c.docs)
    ensures BodyIdRef(req.qnaId).Some? && Target(old(c.docs), BodyIdRef(req.qnaId).value).Some? ==>
      var i := Target(old(c.docs), BodyIdRef(req.qnaId).value).value;
      && r == Ok(Reply(req.content, req.writer, now))
      && c.docs == old(c.docs)[i := old(c.docs)[i].(body := Pushed(old(c.docs)[i].body, r.data))]
  {
    var reply := Reply(req.content, req.writer, now);
    var ref := BodyIdRef(req.qnaId);
    if ref.None? {
      return Fail(ServerError);
    }
    var i := Target(c.docs, ref.value);
    if i.None? {
      return Fail(NotFound);
    }
    var d := c.docs[i.value];
    c.SetAt(i.value, d.createdAt, Pushed(d.body, reply));
    return Ok(reply);
  }
}
