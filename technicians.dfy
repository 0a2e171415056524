/** `/api/technicians`: the technician accounts, kept through a schema whose
    five fields are required strings and whose `id` (the login) is unique.
    Every handler fails with 500 when no connection string is configured. */
module Technicians {
  import opened Common
  import opened Store

  /** `login` is the field the source calls `id`. */
  datatype Technician = Technician(name: string, phoneNumber: string, team: string, login: string, password: string)

  /** The unique index on the login. */
  predicate UniqueLogins(docs: seq<Doc<Technician>>) {
    forall i, j :: 0 <= i < j < |docs| ==> docs[i].body.login != docs[j].body.login
  }

  predicate LoginTaken(docs: seq<Doc<Technician>>, login: string) {
    exists k :: 0 <= k < |docs| && docs[k].body.login == login
  }

  /** A `POST` body; any field may be missing. */
  datatype TechnicianInput = TechnicianInput(
    name: Option<string>, phoneNumber: Option<string>, team: Option<string>,
    login: Option<string>, password: Option<string>, createdAt: Option<Timestamp>)

  /** A `PUT` body without `_id`: the fields it carries are written as they
      are (update validators do not run). */
  datatype TechnicianPatch = TechnicianPatch(
    name: Option<string>, phoneNumber: Option<string>, team: Option<string>,
    login: Option<string>, password: Option<string>, createdAt: Option<Timestamp>)

  /** The schema's `required` check: a missing or empty string fails. */
  function Validated(input: TechnicianInput): (r: Option<Technician>)
    ensures r.Some? <==> Truthy(input.name) && Truthy(input.phoneNumber) && Truthy(input.team)
                         && Truthy(input.login) && Truthy(input.password)
    ensures r.Some? ==> r.value == Technician(input.name.value, input.phoneNumber.value, input.team.value,
                                              input.login.value, input.password.value)
  {
    if Truthy(input.name) && Truthy(input.phoneNumber) && Truthy(input.team) && Truthy(input.login) && Truthy(input.password)
    then Some(Technician(input.name.value, input.phoneNumber.value, input.team.value, input.login.value, input.password.value))
    else None
  }

  /** The record after a patch: each field the patch carries replaces the
      stored one, each field it lacks is kept, and the id never changes. */
  function Patched(d: Doc<Technician>, p: TechnicianPatch): (r: Doc<Technician>)
    ensures r.id == d.id
    ensures r.body.name == p.name.GetOr(d.body.name) && r.body.phoneNumber == p.phoneNumber.GetOr(d.body.phoneNumber)
    ensures r.body.team == p.team.GetOr(d.body.team) && r.body.login == p.login.GetOr(d.body.login)
    ensures r.body.password == p.password.GetOr(d.body.password) && r.createdAt == p.createdAt.GetOr(d.createdAt)
    ensures p == TechnicianPatch(None, None, None, None, None, None) ==> r == d
  {
    Doc(d.id, p.createdAt.GetOr(d.createdAt),
        Technician(p.name.GetOr(d.body.name), p.phoneNumber.GetOr(d.body.phoneNumber), p.team.GetOr(d.body.team),
                   p.login.GetOr(d.body.login), p.password.GetOr(d.body.password)))
  }

  /** Replacing the record at i keeps the logins unique as long as its new
      login is not held by another record. */
  lemma ReplaceKeepsLoginsUnique(docs: seq<Doc<Technician>>, i: nat, d: Doc<Technician>)
    requires UniqueLogins(docs) && i < |docs|
    requires forall k :: 0 <= k < |docs| && k != i ==> docs[k].body.login != d.body.login
    ensures UniqueLogins(docs[i := d])
  {
  }

  /** `GET`: every technician, newest first. */
  function List(docs: seq<Doc<Technician>>, configured: bool): (r: Response<seq<Doc<Technician>>>)
    ensures !configured <==> r == Fail(ServerError)
    ensures r.Ok? ==> NewestFirst(r.data) && multiset(r.data) == multiset(docs)
  {
    if !configured then Fail(ServerError) else Ok(SortNewestFirst(docs))
  }

  /** `POST`: a body failing the schema, a login already taken or an id
      collision is a 500 and nothing is stored; otherwise the technician is
      stored with the given `createdAt` or the current time. */
  method Create(c: Collection<Technician>, configured: bool, input: TechnicianInput, newId: ObjectId, now: Timestamp)
    returns (r: Response<Doc<Technician>>)
    requires c.Valid() && UniqueLogins(c.docs)
    modifies c
    ensures c.Valid() && UniqueLogins(c.docs)
    ensures !configured || Validated(input).None? ==> r == Fail(ServerError) && c.docs == old(c.docs)
    ensures configured && Validated(input).Some? ==>
      var d := Doc(newId, input.createdAt.GetOr(now), Validated(input).value);
      if LoginTaken(old(c.docs), d.body.login) || HasId(old(c.docs), newId) then r == Fail(ServerError) && c.docs == old(c.docs)
      else r == Ok(d) && c.docs == old(c.docs) + [d]
  {
    if !configured {
      return Fail(ServerError);
    }
    var t := Validated(input);
    if t.None? {
      return Fail(ServerError);
    }
    var d := Doc(newId, input.createdAt.GetOr(now), t.value);
    var clash := c.FindOne((x: Doc<Technician>) => x.body.login == d.body.login);
    if clash.Some? {
      return Fail(ServerError);
    }
    var ok := c.InsertOne(newId, d.createdAt, d.body);
    if !ok {
      return Fail(ServerError);
    }
    return Ok(d);
  }

  /** The record `findByIdAndUpdate(_id, ...)` selects through the filter
      `{_id: _id}`: mongoose drops an undefined `_id` from the filter, so a
      body without `_id` selects the first record in natural order, if any;
      a present `_id` selects the record with that id, and one that is not
      an ObjectId selects nothing (the handler fails on it first). */
  function PatchTarget(docs: seq<Doc<Technician>>, rawId: Option<string>): (r: Option<nat>)
    ensures r.Some? ==> r.value < |docs|
    ensures rawId.None? ==> (r.Some? <==> |docs| > 0) && (r.Some? ==> r.value == 0)
    ensures rawId.Some? ==> (r.Some? <==> ParseObjectId(rawId.value).Some? && HasId(docs, ParseObjectId(rawId.value).value))
    ensures rawId.Some? && r.Some? ==> docs[r.value].id == ParseObjectId(rawId.value).value
  {
    match rawId
    case None => if |docs| == 0 then None else Some(0)
    case Some(s) =>
      match ParseObjectId(s)
      case None => None
      case Some(id) => IndexOf(docs, id)
  }

  /** `PUT {_id, ...fields}` (`findByIdAndUpdate` with `new: true`): answers
      with the updated record, or with null when no record is selected; an
      id that is not an ObjectId, or a login held by another record, is a
      500 and nothing changes. A body without `_id` patches the first
      record. */
  method Update(c: Collection<Technician>, configured: bool, rawId: Option<string>, p: TechnicianPatch)
    returns (r: Response<Option<Doc<Technician>>>)
    requires c.Valid() && UniqueLogins(c.docs)
    modifies c
    ensures c.Valid() && UniqueLogins(c.docs)
    ensures !configured || (rawId.Some? && ParseObjectId(rawId.value).None?) ==> r == Fail(ServerError) && c.docs == old(c.docs)
    ensures configured && !(rawId.Some? && ParseObjectId(rawId.value).None?) && PatchTarget(old(c.docs), rawId).None? ==>
      r == Ok(None) && c.docs == old(c.docs)
    ensures configured && PatchTarget(old(c.docs), rawId).Some? ==>
      var i := PatchTarget(old(c.docs), rawId).value;
      var d := Patched(old(c.docs)[i], p);
      if exists k :: 0 <= k < |old(c.docs)| && k != i && old(c.docs)[k].body.login == d.body.login
      then r == Fail(ServerError) && c.docs == old(c.docs)
      else r == Ok(Some(d)) && c.docs == old(c.docs)[i := d]
  {
    if !configured {
      return Fail(ServerError);
    }
    if rawId.Some? && ParseObjectId(rawId.value).None? {
      return Fail(ServerError);
    }
    var i := PatchTarget(c.docs, rawId);
    if i.None? {
      return Ok(None);
    }
    var d := Patched(c.docs[i.value], p);
    var k := 0;
    while k < |c.docs|
      invariant 0 <= k <= |c.docs|
      invariant forall j :: 0 <= j < k && j != i.value ==> c.docs[j].body.login != d.body.login
    {
      if k != i.value && c.docs[k].body.login == d.body.login {
        return Fail(ServerError);
      }
      k := k + 1;
    }
    ReplaceKeepsLoginsUnique(c.docs, i.value, d);
    c.SetAt(i.value, d.createdAt, d.body);
    return Ok(Some(d));
  }

  /** `DELETE ?id=`: success whether or not a record was removed; without
      an id nothing is looked up, and an id that is not an ObjectId is a
      500. */
  method Delete(c: Collection<Technician>, configured: bool, rawId: Option<string>) returns (r: Response<()>)
    requires c.Valid() && UniqueLogins(c.docs)
    modifies c
    ensures c.Valid() && UniqueLogins(c.docs)
    ensures !configured || (rawId.Some? && ParseObjectId(rawId.value).None?) ==> r == Fail(ServerError) && c.docs == old(c.docs)
    ensures configured && rawId.None? ==> r == Ok(()) && c.docs == old(c.docs)
    ensures configured && rawId.Some? && ParseObjectId(rawId.value).Some? ==>
      var id := ParseObjectId(rawId.value).value;
      && r == Ok(())
      && c.docs == if HasId(old(c.docs), id) then RemoveAt(old(c.docs), IndexOf(old(c.docs), id).value) else old(c.docs)
  {
    if !configured {
      return Fail(ServerError);
    }
    if rawId.None? {
      return Ok(());
    }
    var id := ParseObjectId(rawId.value);
    if id.None? {
      return Fail(ServerError);
    }
    var deleted := c.DeleteById(id.value);
    return Ok(());
  }
}
