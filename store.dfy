/** The document store, modelled as an in-memory collection: a sequence of
    documents in natural (insertion) order whose ids are unique. Every
    document of this dashboard carries an id, a creation time and a body. */
module Store {
  import opened Common

  datatype Doc<T> = Doc(id: ObjectId, createdAt: Timestamp, body: T)

  predicate UniqueIds<T>(docs: seq<Doc<T>>) {
    forall i, j :: 0 <= i < j < |docs| ==> docs[i].id != docs[j].id
  }

  predicate HasId<T>(docs: seq<Doc<T>>, id: ObjectId) {
    exists i :: 0 <= i < |docs| && docs[i].id == id
  }

  /** `findOne(filter)`: the position of the first document, in natural
      order, that the filter matches. */
  function FirstMatch<T>(docs: seq<Doc<T>>, p: Doc<T> -> bool): (r: Option<nat>)
    ensures r.Some? ==> r.value < |docs| && p(docs[r.value])
    ensures r.Some? ==> forall k :: 0 <= k < r.value ==> !p(docs[k])
    ensures r.None? ==> forall k :: 0 <= k < |docs| ==> !p(docs[k])
    decreases |docs|
  {
    if |docs| == 0 then None
    else if p(docs[0]) then Some(0)
    else
      match FirstMatch(docs[1..], p)
      case None => None
      case Some(k) => Some(k + 1)
  }

  /** What the driver does on one write: the id it would generate for an
      insert, the clock, and whether the call throws. */
  datatype RowEnv = RowEnv(newId: ObjectId, now: Timestamp, fault: bool)

  /** The filter `{_id: id}`. */
  function IdIs<T>(id: ObjectId): Doc<T> -> bool {
    (d: Doc<T>) => d.id == id
  }

  function IndexOf<T>(docs: seq<Doc<T>>, id: ObjectId): (r: Option<nat>)
    ensures r.Some? ==> r.value < |docs| && docs[r.value].id == id
    ensures r.None? <==> !HasId(docs, id)
  {
    FirstMatch(docs, IdIs(id))
  }

  /** The document an update filter `{_id: new ObjectId(x)}` selects: a
      generated id selects nothing. */
  function Target<T>(docs: seq<Doc<T>>, ref: IdRef): (r: Option<nat>)
    ensures ref.Generated? ==> r.None?
    ensures ref.Given? ==> r == IndexOf(docs, ref.id)
  {
    match ref
    case Generated => None
    case Given(id) => IndexOf(docs, id)
  }

  /** With unique ids, looking a stored document up by its id finds it. */
  lemma IndexOfStored<T>(docs: seq<Doc<T>>, k: nat)
    requires UniqueIds(docs) && k < |docs|
    ensures IndexOf(docs, docs[k].id) == Some(k)
  {
    var r := IndexOf(docs, docs[k].id);
    assert docs[k].id == docs[k].id;
    assert r.Some?;
  }

  /** A document found by id stays the first with that id when it and the
      documents after it change but keep it under the same id. */
  lemma IndexOfKept<T>(docs: seq<Doc<T>>, after: seq<Doc<T>>, id: ObjectId, i: nat)
    requires IndexOf(docs, id) == Some(i)
    requires |after| == |docs| && after[i].id == id
    requires forall k :: 0 <= k < i ==> after[k] == docs[k]
    ensures IndexOf(after, id) == Some(i)
  {
    assert HasId(after, id);
  }

  /** `deleteOne` at a known position: the other documents keep their order. */
  function RemoveAt<T>(docs: seq<Doc<T>>, i: nat): (r: seq<Doc<T>>)
    requires i < |docs|
    ensures |r| == |docs| - 1
    ensures forall k :: 0 <= k < i ==> r[k] == docs[k]
    ensures forall k :: i <= k < |r| ==> r[k] == docs[k + 1]
  {
    docs[..i] + docs[i + 1..]
  }

  /** Removing a document keeps the other ids unique. */
  lemma RemoveAtUnique<T>(docs: seq<Doc<T>>, i: nat)
    requires UniqueIds(docs) && i < |docs|
    ensures UniqueIds(RemoveAt(docs, i))
  {
    var after := RemoveAt(docs, i);
    forall a, b | 0 <= a < b < |after|
      ensures after[a].id != after[b].id
    {
      var a' := if a < i then a else a + 1;
      var b' := if b < i then b else b + 1;
      assert after[a] == docs[a'] && after[b] == docs[b'];
    }
  }

  /** With unique ids, the removed document's id is gone. */
  lemma RemoveAtDropsId<T>(docs: seq<Doc<T>>, i: nat)
    requires UniqueIds(docs) && i < |docs|
    ensures !HasId(RemoveAt(docs, i), docs[i].id)
  {
    var after := RemoveAt(docs, i);
    forall k | 0 <= k < |after|
      ensures after[k].id != docs[i].id
    {
      if k < i { assert after[k] == docs[k]; } else { assert after[k] == docs[k + 1]; }
    }
  }

  /** Every other id is present after the removal exactly when it was
      before. */
  lemma RemoveAtKeepsOthers<T>(docs: seq<Doc<T>>, i: nat, other: ObjectId)
    requires i < |docs| && other != docs[i].id
    ensures HasId(RemoveAt(docs, i), other) <==> HasId(docs, other)
  {
    var after := RemoveAt(docs, i);
    if HasId(docs, other) {
      var k :| 0 <= k < |docs| && docs[k].id == other;
      if k < i { assert after[k].id == other; } else { assert after[k - 1].id == other; }
    }
    if HasId(after, other) {
      var k :| 0 <= k < |after| && after[k].id == other;
      if k < i { assert docs[k].id == other; } else { assert docs[k + 1].id == other; }
    }
  }

  /** Deleting the document with a given id removes exactly that id: every
      other id is still present, and uniqueness is kept. */
  lemma RemoveById<T>(docs: seq<Doc<T>>, id: ObjectId)
    requires UniqueIds(docs) && HasId(docs, id)
    ensures IndexOf(docs, id).Some?
    ensures var after := RemoveAt(docs, IndexOf(docs, id).value);
      && UniqueIds(after)
      && !HasId(after, id)
      && forall other: ObjectId :: other != id ==> (HasId(after, other) <==> HasId(docs, other))
  {
    var i := IndexOf(docs, id).value;
    RemoveAtUnique(docs, i);
    RemoveAtDropsId(docs, i);
    forall other: ObjectId | other != id
      ensures HasId(RemoveAt(docs, i), other) <==> HasId(docs, other)
    {
      RemoveAtKeepsOthers(docs, i, other);
    }
  }

  /** Sort order `{createdAt: -1}`: newest first. */
  predicate NewestFirst<T>(docs: seq<Doc<T>>) {
    forall i, j :: 0 <= i < j < |docs| ==> docs[i].createdAt >= docs[j].createdAt
  }

  /** `d` placed in front of the first document that is not newer. */
  function InsertByAge<T>(d: Doc<T>, sorted: seq<Doc<T>>): seq<Doc<T>>
    decreases |sorted|
  {
    if |sorted| == 0 then [d]
    else if d.createdAt >= sorted[0].createdAt then [d] + sorted
    else [sorted[0]] + InsertByAge(d, sorted[1..])
  }

  /** Inserting adds `d` and loses nothing. */
  lemma {:induction false} InsertByAgeAdds<T>(d: Doc<T>, sorted: seq<Doc<T>>)
    ensures multiset(InsertByAge(d, sorted)) == multiset(sorted) + multiset{d}
    ensures |InsertByAge(d, sorted)| == |sorted| + 1
    decreases |sorted|
  {
    if |sorted| > 0 && d.createdAt < sorted[0].createdAt {
      InsertByAgeAdds(d, sorted[1..]);
      assert sorted == [sorted[0]] + sorted[1..];
    }
  }

  /** The first document after inserting is `d` or the old first one. */
  lemma InsertByAgeHead<T>(d: Doc<T>, sorted: seq<Doc<T>>)
    ensures InsertByAge(d, sorted)[0] == d || (|sorted| > 0 && InsertByAge(d, sorted)[0] == sorted[0])
  {
  }

  /** Inserting into a newest-first sequence keeps it newest first. */
  lemma {:induction false} InsertByAgeSorted<T>(d: Doc<T>, sorted: seq<Doc<T>>)
    requires NewestFirst(sorted)
    ensures NewestFirst(InsertByAge(d, sorted))
    decreases |sorted|
  {
    if |sorted| > 0 && d.createdAt < sorted[0].createdAt {
      var rest := InsertByAge(d, sorted[1..]);
      InsertByAgeSorted(d, sorted[1..]);
      InsertByAgeHead(d, sorted[1..]);
      InsertByAgeAdds(d, sorted[1..]);
      var r := [sorted[0]] + rest;
      var top := sorted[0].createdAt;
      assert rest[0].createdAt <= top by {
        if rest[0] != d { assert rest[0] == sorted[1]; }
      }
      forall i, j | 0 <= i < j < |r|
        ensures r[i].createdAt >= r[j].createdAt
      {
        assert r[j] == rest[j - 1];
        if i > 0 { assert r[i] == rest[i - 1]; }
        else { assert rest[0].createdAt >= rest[j - 1].createdAt || j == 1; }
      }
    }
  }

  /** The documents newest first; documents with equal creation times keep
      their natural order (the store leaves that order unspecified). */
  function SortNewestFirst<T>(docs: seq<Doc<T>>): (r: seq<Doc<T>>)
    ensures NewestFirst(r)
    ensures multiset(r) == multiset(docs)
    ensures |r| == |docs|
    decreases |docs|
  {
    if |docs| == 0 then []
    else
      assert docs == [docs[0]] + docs[1..];
      var rest := SortNewestFirst(docs[1..]);
      InsertByAgeAdds(docs[0], rest);
      InsertByAgeSorted(docs[0], rest);
      InsertByAge(docs[0], rest)
  }

  /** A collection the handlers read and change in place. */
  class Collection<T> {
    var docs: seq<Doc<T>>

    ghost predicate Valid()
      reads this
    {
      UniqueIds(docs)
    }

    constructor (initial: seq<Doc<T>>)
      requires UniqueIds(initial)
      ensures Valid() && docs == initial
    {
      docs := initial;
    }

    /** `findOne(filter)`: a scan of the collection in natural order. */
    method FindOne(p: Doc<T> -> bool) returns (r: Option<nat>)
      ensures r == FirstMatch(docs, p)
    {
      var i := 0;
      while i < |docs|
        invariant 0 <= i <= |docs|
        invariant forall k :: 0 <= k < i ==> !p(docs[k])
      {
        if p(docs[i]) {
          return Some(i);
        }
        i := i + 1;
      }
      return None;
    }

    /** `insertOne` with the id the driver generated; an id already present
        is a duplicate-key error and nothing is written. */
    method InsertOne(id: ObjectId, createdAt: Timestamp, body: T) returns (ok: bool)
      requires Valid()
      modifies this
      ensures Valid()
      ensures ok <==> !HasId(old(docs), id)
      ensures docs == if ok then old(docs) + [Doc(id, createdAt, body)] else old(docs)
    {
      var found := FindOne(IdIs(id));
      ok := found.None?;
      if ok {
        docs := docs + [Doc(id, createdAt, body)];
      }
    }

    /** `updateOne` with `$set` on the document at position i: its id is kept. */
    method SetAt(i: nat, createdAt: Timestamp, body: T)
      requires Valid() && i < |docs|
      modifies this
      ensures Valid()
      ensures docs == old(docs)[i := Doc(old(docs)[i].id, createdAt, body)]
    {
      docs := docs[i := Doc(docs[i].id, createdAt, body)];
    }

    /** `deleteOne({_id: id})`: removes the document with that id, if any. */
    method DeleteById(id: ObjectId) returns (deleted: bool)
      requires Valid()
      modifies this
      ensures Valid()
      ensures deleted <==> HasId(old(docs), id)
      ensures docs == if deleted then RemoveAt(old(docs), IndexOf(old(docs), id).value) else old(docs)
    {
      var found := FindOne(IdIs(id));
      deleted := found.Some?;
      if deleted {
        DeleteAt(found.value);
      }
    }

    /** `deleteOne` of the document at position i. */
    method DeleteAt(i: nat)
      requires Valid() && i < |docs|
      modifies this
      ensures Valid()
      ensures docs == RemoveAt(old(docs), i)
    {
      docs := RemoveAt(docs, i);
    }
  }
}
