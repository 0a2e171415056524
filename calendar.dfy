/** The calendar (`/api/calendar`): every event at once, created and edited
    with an optional description, deleted by id. */
module Calendar {
  import opened Common
  import opened Store

  datatype Event = Event(title: string, start: string, end: string, description: string)

  /** A `POST` or `PUT` body; `description` may be absent or empty. */
  datatype EventInput = EventInput(title: string, start: string, end: string, description: Option<string>)

  datatype EventEdit = EventEdit(id: Option<string>, fields: EventInput)

  /** `description || ''`. */
  function EventOf(input: EventInput): (e: Event)
    ensures e.title == input.title && e.start == input.start && e.end == input.end
    ensures e.description == (if Truthy(input.description) then input.description.value else "")
  {
    Event(input.title, input.start, input.end, input.description.GetOr(""))
  }

  /** `GET`: every event, in natural order, with no pagination. */
  function List(docs: seq<Doc<Event>>): (r: Response<seq<Doc<Event>>>)
    ensures r == Ok(docs)
  {
    Ok(docs)
  }

  method Create(c: Collection<Event>, input: EventInput, newId: ObjectId, now: Timestamp) returns (r: Response<Doc<Event>>)
    requires c.Valid()
    modifies c
    ensures c.Valid()
    ensures HasId(old(c.docs), newId) ==> r == Fail(ServerError) && c.docs == old(c.docs)
    ensures !HasId(old(c.docs), newId) ==>
      r == Ok(Doc(newId, now, EventOf(input))) && c.docs == old(c.docs) + [Doc(newId, now, EventOf(input))]
  {
    var ok := c.InsertOne(newId, now, EventOf(input));
    if !ok {
      return Fail(ServerError);
    }
    return Ok(Doc(newId, now, EventOf(input)));
  }

  /** `PUT`: sets title, start, end and description; `createdAt` stays. */
  method Update(c: Collection<Event>, e: EventEdit) returns (r: Response<(Option<string>, Event)>)
    requires c.Valid()
    modifies c
    ensures c.Valid()
    ensures BodyIdRef(e.id).None? ==> r == Fail(ServerError) && c.docs == old(c.docs)
    ensures BodyIdRef(e.id).Some? && Target(old(c.docs), BodyIdRef(e.id).value).None? ==>
      r == Fail(NotFound) && c.docs == old(c.docs)
    ensures BodyIdRef(e.id).Some? && Target(old(c.docs), BodyIdRef(e.id).value).Some? ==>
      var i := Target(old(c.docs), BodyIdRef(e.id).value).value;
      && r == Ok((e.id, EventOf(e.fields)))
      && c.docs == old(c.docs)[i := Doc(old(c.docs)[i].id, old(c.docs)[i].createdAt, EventOf(e.fields))]
  {
    var ref := BodyIdRef(e.id);
    if ref.None? {
      return Fail(ServerError);
    }
    var i := Target(c.docs, ref.value);
    if i.None? {
      return Fail(NotFound);
    }
    c.SetAt(i.value, c.docs[i.value].createdAt, EventOf(e.fields));
    return Ok((e.id, EventOf(e.fields)));
  }

  method Delete(c: Collection<Event>, rawId: Option<string>) returns (r: Response<()>)
    requires c.Valid()
    modifies c
    ensures c.Valid()
    ensures QueryObjectId(rawId).Fail? ==> r == Fail(QueryObjectId(rawId).status) && c.docs == old(c.docs)
    ensures QueryObjectId(rawId).Ok? ==>
      var id := QueryObjectId(rawId).data;
      if HasId(old(c.docs), id) then r == Ok(()) && c.docs == RemoveAt(old(c.docs), IndexOf(old(c.docs), id).value)
      else r == Fail(NotFound) && c.docs == old(c.docs)
  {
    var q := QueryObjectId(rawId);
    if q.Fail? {
      return Fail(q.status);
    }
    var deleted := c.DeleteById(q.data);
    if !deleted {
      return Fail(NotFound);
    }
    return Ok(());
  }
}
