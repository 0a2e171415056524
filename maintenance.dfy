/** The maintenance vendors (`/api/maintenance`): listed newest first in
    pages, created with a time stamp, edited in five fields, deleted by id. */
module Maintenance {
  import opened Common
  import opened Store
  import opened Paging
  import Listing

  /** `stuff` is the vendor's contact person. */
  datatype Vendor = Vendor(schoolName: string, stuff: string, comName: string, phone: string, licence: string)

  datatype VendorEdit = VendorEdit(id: Option<string>, fields: Vendor)

  /** `GET`: the page `q` of the vendors, newest first. */
  function List(docs: seq<Doc<Vendor>>, q: PageQuery): Response<(seq<Doc<Vendor>>, Pagination)> {
    Listing.NewestPage(docs, q)
  }

  /** `POST`: stores the five fields with `createdAt` and answers with them
      and the new `_id`. */
  method Create(c: Collection<Vendor>, v: Vendor, newId: ObjectId, now: Timestamp) returns (r: Response<Doc<Vendor>>)
    requires c.Valid()
    modifies c
    ensures c.Valid()
    ensures HasId(old(c.docs), newId) ==> r == Fail(ServerError) && c.docs == old(c.docs)
    ensures !HasId(old(c.docs), newId) ==>
      r == Ok(Doc(newId, now, v)) && c.docs == old(c.docs) + [Doc(newId, now, v)]
  {
    var ok := c.InsertOne(newId, now, v);
    if !ok {
      return Fail(ServerError);
    }
    return Ok(Doc(newId, now, v));
  }

  /** `PUT`: `$set` of the five fields on the matched vendor, whose id and
      `createdAt` stay; an id that matches nothing is a 404 and no change. */
  method Update(c: Collection<Vendor>, e: VendorEdit) returns (r: Response<(Option<string>, Vendor)>)
    requires c.Valid()
    modifies c
    ensures c.Valid()
    ensures BodyIdRef(e.id).None? ==> r == Fail(ServerError) && c.docs == old(c.docs)
    ensures BodyIdRef(e.id).Some? && Target(old(c.docs), BodyIdRef(e.id).value).None? ==>
      r == Fail(NotFound) && c.docs == old(c.docs)
    ensures BodyIdRef(e.id).Some? && Target(old(c.docs), BodyIdRef(e.id).value).Some? ==>
      var i := Target(old(c.docs), BodyIdRef(e.id).value).value;
      && r == Ok((e.id, e.fields))
      && c.docs == old(c.docs)[i := Doc(old(c.docs)[i].id, old(c.docs)[i].createdAt, e.fields)]
  {
    var ref := BodyIdRef(e.id);
    if ref.None? {
      return Fail(ServerError);
    }
    var i := Target(c.docs, ref.value);
    if i.None? {
      return Fail(NotFound);
    }
    c.SetAt(i.value, c.docs[i.value].createdAt, e.fields);
    return Ok((e.id, e.fields));
  }

  /** `DELETE ?id=`: 400 without an id, 404 when nothing was deleted, and
      otherwise exactly the vendor with that id is gone. */
  method Delete(c: Collection<Vendor>, rawId: Option<string>) returns (r: Response<()>)
    requires c.Valid()
    modifies c
    ensures c.Valid()
    ensures QueryObjectId(rawId).Fail? ==> r == Fail(QueryObjectId(rawId).status) && c.docs == old(c.docs)
    ensures QueryObjectId(rawId).Ok? ==>
      var id := QueryObjectId(rawId).data;
      if HasId(old(c.docs), id) then r == Ok(()) && c.docs == RemoveAt(old(c.docs), IndexOf(old(c.docs), id).value)
      else r == Fail(NotFound) && c.docs == old(c.docs)
  {
    var q := QueryObjectId(rawId);
    if q.Fail? {
      return Fail(q.status);
    }
    var deleted := c.DeleteById(q.data);
    if !deleted {
      return Fail(NotFound);
    }
    return Ok(());
  }
}
