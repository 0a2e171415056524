/** `PUT /api/schools/update?id=&team=`: reassigns one school of the
    `school` collection to a team. */
module SchoolTeam {
  import opened Common
  import opened Store
  import opened Json

  /** The whole effect of one request: 400 unless both parameters are
      given, 500 for an id that is not an ObjectId, 404 when no school has
      it, and otherwise that school's `data.team` becomes the given team. */
  function AssignTeam(docs: seq<Doc<Record>>, rawId: Option<string>, team: Option<string>): (r: (seq<Doc<Record>>, Response<()>))
    ensures !Truthy(rawId) || !Truthy(team) ==> r == (docs, Fail(BadRequest))
    ensures Truthy(team) && QueryObjectId(rawId).Fail? ==> r == (docs, Fail(QueryObjectId(rawId).status))
    ensures r.1.Ok? ==> Truthy(team) && QueryObjectId(rawId).Ok? && HasId(docs, QueryObjectId(rawId).data)
    ensures Truthy(team) && QueryObjectId(rawId).Ok? && !HasId(docs, QueryObjectId(rawId).data) ==> r == (docs, Fail(NotFound))
    ensures Truthy(team) && QueryObjectId(rawId).Ok? && HasId(docs, QueryObjectId(rawId).data) ==>
      var i := IndexOf(docs, QueryObjectId(rawId).data).value;
      r == (docs[i := docs[i].(body := docs[i].body[Team := Str(team.value)])], Ok(()))
  {
    if !Truthy(rawId) || !Truthy(team) then (docs, Fail(BadRequest))
    else match QueryObjectId(rawId)
      case Fail(s) => (docs, Fail(s))
      case Ok(id) =>
        match IndexOf(docs, id)
        case None => (docs, Fail(NotFound))
        case Some(i) => (docs[i := docs[i].(body := docs[i].body[Team := Str(team.value)])], Ok(()))
  }

  /** On success only `data.team` of the school with that id changes: its
      other fields, its id and `createdAt`, and every other school stay. */
  lemma AssignTeamChangesOnlyTeam(docs: seq<Doc<Record>>, rawId: Option<string>, team: Option<string>)
    requires UniqueIds(docs)
    requires AssignTeam(docs, rawId, team).1.Ok?
    ensures var after := AssignTeam(docs, rawId, team).0;
      var id := QueryObjectId(rawId).data;
      && |after| == |docs|
      && (forall k :: 0 <= k < |docs| && docs[k].id != id ==> after[k] == docs[k])
      && (forall k :: 0 <= k < |docs| && docs[k].id == id ==>
            && after[k].id == id && after[k].createdAt == docs[k].createdAt
            && after[k].body == docs[k].body[Team := Str(team.value)])
  {
    var id := QueryObjectId(rawId).data;
    var i := IndexOf(docs, id).value;
    forall k | 0 <= k < |docs| && docs[k].id == id
      ensures k == i
    {
      IndexOfStored(docs, k);
    }
  }

  /** The school settings page marks a school complete by calling this
      route with `id` and `iscomp=1`, and no `team`: the call is always
      refused with 400 and nothing changes. */
  lemma CompleteCallRejected(docs: seq<Doc<Record>>, rawId: Option<string>)
    ensures AssignTeam(docs, rawId, None) == (docs, Fail(BadRequest))
  {
  }

  method UpdateTeam(c: Collection<Record>, rawId: Option<string>, team: Option<string>) returns (r: Response<()>)
    requires c.Valid()
    modifies c
    ensures c.Valid()
    ensures (c.docs, r) == AssignTeam(old(c.docs), rawId, team)
  {
    if !Truthy(rawId) || !Truthy(team) {
      return Fail(BadRequest);
    }
    var q := QueryObjectId(rawId);
    if q.Fail? {
      return Fail(q.status);
    }
    var i := c.FindOne(IdIs(q.data));
    if i.None? {
      return Fail(NotFound);
    }
    var d := c.docs[i.value];
    c.SetAt(i.value, d.createdAt, d.body[Team := Str(team.value)]);
    return Ok(());
  }
}
