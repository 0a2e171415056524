/** `/api/schools` on the `schools` collection: page listing in natural
    order, and insert, replace and delete of a school's `data` object. */
module Schools {
  import opened Common
  import opened Store
  import opened Paging
  import opened Json

  /** The coordinates stored when a form gives none (Seoul city hall), in
      the same opaque unit as every coordinate. */
  const DefaultLat: Coord := 375665
  const DefaultLng: Coord := 1269780

  /** The eleven fields a stored school's `data` holds after a `POST` or `PUT`. */
  const SchoolKeys: set<Key> :=
    {Division, Level, Name, IsTech, Address, TotalClasses,
     TeachersRoomNum, AdminRoomNum, Team, Lat, Lng}

  /** One field of the `data` object written by `POST` and `PUT`: text
      fields default to `''`, counts to 0 and coordinates to the default
      position; the stored `teachers_room_num` is read from the request's
      `teacher_room_num`. */
  function SchoolField(input: Record, k: Key): Value
    requires k in SchoolKeys
  {
    match k
    case IsTech => Num(NumberOr(input, IsTech, 0))
    case TotalClasses => Num(NumberOr(input, TotalClasses, 0))
    case TeachersRoomNum => TextOr(input, TeacherRoomNum)
    case Lat => Num(NumberOr(input, Lat, DefaultLat))
    case Lng => Num(NumberOr(input, Lng, DefaultLng))
    case _ => TextOr(input, k)
  }

  /** The `data` object written by `POST` and `PUT`: exactly the eleven
      fields, each defaulted, with coordinates that are never 0. */
  function SchoolData(input: Record): (d: Record)
    ensures d.Keys == SchoolKeys
    ensures forall k :: k in d ==> d[k] == SchoolField(input, k)
    ensures d[Name] == TextOr(input, Name) && d[Team] == TextOr(input, Team)
    ensures d[TeachersRoomNum] == TextOr(input, TeacherRoomNum)
    ensures d[Lat] != Num(0) && d[Lng] != Num(0)
  {
    map k | k in SchoolKeys :: SchoolField(input, k)
  }

  /** The school form posts its staff-room number as `teachers_room_num`
      and its longitude as `lon`; the handlers read `teacher_room_num` and
      `lng`, so whatever the form holds, the stored room number is `''` and
      the stored longitude is the default. */
  lemma FormLosesRoomAndLongitude(form: Record)
    requires TeacherRoomNum !in form && Lng !in form
    ensures SchoolData(form)[TeachersRoomNum] == Str("")
    ensures SchoolData(form)[Lng] == Num(DefaultLng)
    ensures Lon !in SchoolData(form)
  {
  }

  /** `GET ?page=&limit=`: the page of the collection in stored order. */
  function List(docs: seq<Doc<Record>>, page: Option<int>, limit: Option<int>): (r: Response<(seq<Doc<Record>>, Pagination)>)
    ensures var q := QueryOf(page, limit);
      && (r.Fail? <==> Skip(q) < 0)
      && (r.Ok? ==> r.data.0 == Window(docs, Skip(q), q.limit) && r.data.1.total == |docs|
                    && r.data.1.totalPages == TotalPages(|docs|, q.limit))
  {
    ListPage(docs, QueryOf(page, limit))
  }

  /** `POST {data}`: a body with no `data` object fails; otherwise the
      normalised school is inserted with `createdAt` and the new id is
      answered. */
  method Create(c: Collection<Record>, body: Option<Record>, newId: ObjectId, now: Timestamp) returns (r: Response<ObjectId>)
    requires c.Valid()
    modifies c
    ensures c.Valid()
    ensures body.None? || HasId(old(c.docs), newId) ==> r == Fail(ServerError) && c.docs == old(c.docs)
    ensures body.Some? && !HasId(old(c.docs), newId) ==>
      r == Ok(newId) && c.docs == old(c.docs) + [Doc(newId, now, SchoolData(body.value))]
  {
    if body.None? {
      return Fail(ServerError);
    }
    var ok := c.InsertOne(newId, now, SchoolData(body.value));
    if !ok {
      return Fail(ServerError);
    }
    return Ok(newId);
  }

  /** `PUT {_id, data}`: replaces the matched school's whole `data` (any
      field outside the eleven, such as `iscomp`, is dropped) and keeps
      `createdAt`. It succeeds whether or not a school matched, answering
      with the matched count. */
  method Update(c: Collection<Record>, id: Option<string>, body: Option<Record>) returns (r: Response<nat>)
    requires c.Valid()
    modifies c
    ensures c.Valid()
    ensures body.None? || BodyIdRef(id).None? ==> r == Fail(ServerError) && c.docs == old(c.docs)
    ensures body.Some? && BodyIdRef(id).Some? && Target(old(c.docs), BodyIdRef(id).value).None? ==>
      r == Ok(0) && c.docs == old(c.docs)
    ensures body.Some? && BodyIdRef(id).Some? && Target(old(c.docs), BodyIdRef(id).value).Some? ==>
      var i := Target(old(c.docs), BodyIdRef(id).value).value;
      && r == Ok(1)
      && c.docs == old(c.docs)[i := Doc(old(c.docs)[i].id, old(c.docs)[i].createdAt, SchoolData(body.value))]
  {
    if body.None? {
      return Fail(ServerError);
    }
    var ref := BodyIdRef(id);
    if ref.None? {
      return Fail(ServerError);
    }
    var i := Target(c.docs, ref.value);
    if i.None? {
      return Ok(0);
    }
    c.SetAt(i.value, c.docs[i.value].createdAt, SchoolData(body.value));
    return Ok(1);
  }

  /** `DELETE ?id=`: 400 without an id and before any store access;
      otherwise success with the deleted count, 0 or 1. */
  method Delete(c: Collection<Record>, rawId: Option<string>) returns (r: Response<nat>)
    requires c.Valid()
    modifies c
    ensures c.Valid()
    ensures QueryObjectId(rawId).Fail? ==> r == Fail(QueryObjectId(rawId).status) && c.docs == old(c.docs)
    ensures QueryObjectId(rawId).Ok? ==>
      var id := QueryObjectId(rawId).data;
      if HasId(old(c.docs), id) then r == Ok(1) && c.docs == RemoveAt(old(c.docs), IndexOf(old(c.docs), id).value)
      else r == Ok(0) && c.docs == old(c.docs)
  {
    var q := QueryObjectId(rawId);
    if q.Fail? {
      return Fail(q.status);
    }
    var deleted := c.DeleteById(q.data);
    return Ok(if deleted then 1 else 0);
  }
}
