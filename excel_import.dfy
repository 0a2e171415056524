/** `POST /api/upload-excel`: every row of the request body stored as one
    document of the `school` collection, its `data` being the row exactly
    as sent. */
module ExcelImport {
  import opened Common
  import opened Store
  import opened Json

  datatype Saved = Saved(docs: seq<Doc<Record>>, failures: nat)

  /** The documents each row would become: the row as `data`, under the
      id and time stamp of its write. */
  function RowDocs(rows: seq<Record>, env: nat -> RowEnv): (r: seq<Doc<Record>>)
    ensures |r| == |rows|
    ensures forall i :: 0 <= i < |rows| ==> r[i] == Doc(env(i).newId, env(i).now, rows[i])
  {
    seq(|rows|, i requires 0 <= i < |rows| => Doc(env(i).newId, env(i).now, rows[i]))
  }

  /** Every row is written, one after the other; a failing `create` (the
      driver throws, or the id collides) stores nothing for its row and is
      counted, and the other rows are stored regardless. */
  function SaveRows(docs: seq<Doc<Record>>, rows: seq<Record>, env: nat -> RowEnv): (r: Saved)
    decreases |rows|
  {
    if |rows| == 0 then Saved(docs, 0)
    else
      var prev := SaveRows(docs, rows[..|rows| - 1], env);
      var e := env(|rows| - 1);
      if e.fault || HasId(prev.docs, e.newId) then Saved(prev.docs, prev.failures + 1)
      else Saved(prev.docs + [Doc(e.newId, e.now, rows[|rows| - 1])], prev.failures)
  }

  /** One document is stored per row that did not fail, after the
      documents already there, which stay as they were. */
  lemma {:induction false} SaveRowsCount(docs: seq<Doc<Record>>, rows: seq<Record>, env: nat -> RowEnv)
    ensures var r := SaveRows(docs, rows, env);
      |r.docs| + r.failures == |docs| + |rows| && |docs| <= |r.docs| && r.docs[..|docs|] == docs
    decreases |rows|
  {
    if |rows| > 0 {
      SaveRowsCount(docs, rows[..|rows| - 1], env);
    }
  }

  /** Every stored document holds one of the rows, unchanged. */
  lemma {:induction false} SaveRowsBodies(docs: seq<Doc<Record>>, rows: seq<Record>, env: nat -> RowEnv, k: nat)
    requires |docs| <= k < |SaveRows(docs, rows, env).docs|
    ensures SaveRows(docs, rows, env).docs[k].body in rows
    decreases |rows|
  {
    var init := rows[..|rows| - 1];
    var prev := SaveRows(docs, init, env);
    if k < |prev.docs| {
      SaveRowsBodies(docs, init, env, k);
      assert prev.docs[k].body in init;
    }
  }

  /** The writes never break the uniqueness of ids. */
  lemma {:induction false} SaveRowsUnique(docs: seq<Doc<Record>>, rows: seq<Record>, env: nat -> RowEnv)
    requires UniqueIds(docs)
    ensures UniqueIds(SaveRows(docs, rows, env).docs)
    decreases |rows|
  {
    if |rows| > 0 {
      SaveRowsUnique(docs, rows[..|rows| - 1], env);
    }
  }

  /** When nothing failed, exactly one document per row was added, in row
      order, each holding its row. */
  lemma {:induction false} SaveRowsAll(docs: seq<Doc<Record>>, rows: seq<Record>, env: nat -> RowEnv)
    requires SaveRows(docs, rows, env).failures == 0
    ensures SaveRows(docs, rows, env).docs == docs + RowDocs(rows, env)
    decreases |rows|
  {
    if |rows| > 0 {
      var init := rows[..|rows| - 1];
      SaveRowsAll(docs, init, env);
      assert RowDocs(rows, env) == RowDocs(init, env) + [Doc(env(|rows| - 1).newId, env(|rows| - 1).now, rows[|rows| - 1])];
    }
  }

  /** The handler: a body that is not a list of rows is a 500 with nothing
      stored. Otherwise every row is attempted; if any failed the answer is
      a 500 (the rows that went through stay stored), else it reports the
      number of rows and the stored documents. */
  method Import(c: Collection<Record>, body: Option<seq<Record>>, env: nat -> RowEnv) returns (r: Response<(nat, seq<Doc<Record>>)>)
    requires c.Valid()
    modifies c
    ensures c.Valid()
    ensures body.None? ==> r == Fail(ServerError) && c.docs == old(c.docs)
    ensures body.Some? ==>
      var s := SaveRows(old(c.docs), body.value, env);
      && c.docs == s.docs
      && r == if s.failures == 0 then Ok((|body.value|, RowDocs(body.value, env))) else Fail(ServerError)
  {
    if body.None? {
      return Fail(ServerError);
    }
    var rows := body.value;
    var failures := 0;
    var i := 0;
    while i < |rows|
      invariant 0 <= i <= |rows|
      invariant c.Valid()
      invariant SaveRows(old(c.docs), rows[..i], env) == Saved(c.docs, failures)
    {
      var e := env(i);
      var ok := false;
      if !e.fault {
        ok := c.InsertOne(e.newId, e.now, rows[i]);
      }
      if !ok {
        failures := failures + 1;
      }
      assert rows[..i + 1][..i] == rows[..i];
      i := i + 1;
    }
    assert rows[..i] == rows;
    if failures > 0 {
      return Fail(ServerError);
    }
    return Ok((|rows|, RowDocs(rows, env)));
  }
}
