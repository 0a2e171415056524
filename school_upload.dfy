/** `POST /api/schools/upload`: a spreadsheet of schools imported into the
    `school` collection row by row, each row upserted on its natural key
    (division, level, name), with the rows that were added, updated or
    failed counted. */
module SchoolUpload {
  import opened Common
  import opened Store
  import opened Json

  /** The eight fields of the `data` a row becomes. The handler reads the
      sheet columns `tech` and `teacher_room_num`. */
  const RowKeys: set<Key> :=
    {Division, Level, Name, Tech, TotalClasses, TeacherRoomNum, AdminRoomNum, Team}

  /** The `data` written for one sheet row: text columns default to `''`
      and the three counts to 0. */
  function RowData(row: Record): (d: Record)
    ensures d.Keys == RowKeys
    ensures d[Division] == TextOr(row, Division) && d[Level] == TextOr(row, Level) && d[Name] == TextOr(row, Name)
    ensures d[Tech] == TextOr(row, Tech) && d[Team] == TextOr(row, Team)
    ensures forall k :: k in {TotalClasses, TeacherRoomNum, AdminRoomNum} ==> d[k] == Num(NumberOr(row, k, 0))
  {
    map[
      Division := TextOr(row, Division),
      Level := TextOr(row, Level),
      Name := TextOr(row, Name),
      Tech := TextOr(row, Tech),
      TotalClasses := Num(NumberOr(row, TotalClasses, 0)),
      TeacherRoomNum := Num(NumberOr(row, TeacherRoomNum, 0)),
      AdminRoomNum := Num(NumberOr(row, AdminRoomNum, 0)),
      Team := TextOr(row, Team)
    ]
  }

  predicate SameField(a: Record, b: Record, k: Key) {
    k in a && k in b && a[k] == b[k]
  }

  /** Two `data` objects share the natural key. A stored document lacking
      one of the three fields matches no row. */
  predicate SameKey(a: Record, b: Record) {
    SameField(a, b, Division) && SameField(a, b, Level) && SameField(a, b, Name)
  }

  /** The filter `{'data.division': .., 'data.level': .., 'data.name': ..}`. */
  function KeyIs(data: Record): Doc<Record> -> bool {
    (d: Doc<Record>) => SameKey(d.body, data)
  }

  /** Some document of the collection has the natural key of `data`. */
  predicate HasKey(docs: seq<Doc<Record>>, data: Record) {
    exists k :: 0 <= k < |docs| && SameKey(docs[k].body, data)
  }

  datatype Outcome = Added | Updated | Errored

  datatype Step = Step(docs: seq<Doc<Record>>, outcome: Outcome)

  /** One iteration of the loop, on the row's `data`. When a store call
      throws, or the insert hits a duplicate id, nothing is written and the
      row counts as an error. Otherwise the first document with the row's
      key gets the new `data` and `createdAt` under its old id, or, if none
      has the key, a new document is appended. */
  function Upsert(docs: seq<Doc<Record>>, data: Record, e: RowEnv): (r: Step)
    ensures r.outcome == Updated <==> !e.fault && FirstMatch(docs, KeyIs(data)).Some?
    ensures r.outcome == Added <==> !e.fault && FirstMatch(docs, KeyIs(data)).None? && !HasId(docs, e.newId)
    ensures r.outcome == Errored ==> r.docs == docs
    ensures r.outcome == Added ==> r.docs == docs + [Doc(e.newId, e.now, data)]
    ensures r.outcome == Updated ==>
      var j := FirstMatch(docs, KeyIs(data)).value;
      r.docs == docs[j := Doc(docs[j].id, e.now, data)]
  {
    if e.fault then Step(docs, Errored)
    else match FirstMatch(docs, KeyIs(data))
      case Some(j) => Step(docs[j := Doc(docs[j].id, e.now, data)], Updated)
      case None =>
        if HasId(docs, e.newId) then Step(docs, Errored)
        else Step(docs + [Doc(e.newId, e.now, data)], Added)
  }

  /** A row that goes through leaves a document with its key, and an upsert
      never breaks the uniqueness of ids nor moves or renames a document. */
  lemma UpsertFacts(docs: seq<Doc<Record>>, data: Record, e: RowEnv)
    requires data.Keys >= {Division, Level, Name}
    ensures var r := Upsert(docs, data, e);
      && (r.outcome != Errored ==> HasKey(r.docs, data))
      && |r.docs| >= |docs|
      && (forall k :: 0 <= k < |docs| ==> r.docs[k].id == docs[k].id)
      && (UniqueIds(docs) ==> UniqueIds(r.docs))
  {
    var r := Upsert(docs, data, e);
    if r.outcome == Updated {
      var j := FirstMatch(docs, KeyIs(data)).value;
      assert SameKey(r.docs[j].body, data);
    } else if r.outcome == Added {
      assert SameKey(r.docs[|docs|].body, data);
    }
  }

  datatype Tally = Tally(added: nat, updated: nat, errors: nat) {
    function Plus(o: Outcome): Tally {
      match o
      case Added => this.(added := added + 1)
      case Updated => this.(updated := updated + 1)
      case Errored => this.(errors := errors + 1)
    }
  }

  /** The `{added, updated, errors}` counters after the given outcomes; each
      row bumps exactly one of them. */
  function TallyOf(outs: seq<Outcome>): (t: Tally)
    ensures t.added + t.updated + t.errors == |outs|
  {
    if |outs| == 0 then Tally(0, 0, 0) else TallyOf(outs[..|outs| - 1]).Plus(outs[|outs| - 1])
  }

  lemma TallyAppend(outs: seq<Outcome>, o: Outcome)
    ensures TallyOf(outs + [o]) == TallyOf(outs).Plus(o)
  {
    assert (outs + [o])[..|outs|] == outs;
  }

  datatype Run = Run(docs: seq<Doc<Record>>, outcomes: seq<Outcome>)

  /** The rows processed in order, each against the collection its
      predecessors left, with one outcome per row. */
  function Replay(docs: seq<Doc<Record>>, rows: seq<Record>, env: nat -> RowEnv): (r: Run)
    ensures |r.outcomes| == |rows|
    decreases |rows|
  {
    if |rows| == 0 then Run(docs, [])
    else
      var prev := Replay(docs, rows[..|rows| - 1], env);
      var s := Upsert(prev.docs, RowData(rows[|rows| - 1]), env(|rows| - 1));
      Run(s.docs, prev.outcomes + [s.outcome])
  }

  /** The collection after the first n rows. */
  function After(docs: seq<Doc<Record>>, rows: seq<Record>, env: nat -> RowEnv, n: nat): seq<Doc<Record>>
    requires n <= |rows|
  {
    Replay(docs, rows[..n], env).docs
  }

  /** Row n meets the collection the first n rows left. */
  lemma ReplayStep(docs: seq<Doc<Record>>, rows: seq<Record>, env: nat -> RowEnv, n: nat)
    requires n < |rows|
    ensures var s := Upsert(After(docs, rows, env, n), RowData(rows[n]), env(n));
      && After(docs, rows, env, n + 1) == s.docs
      && Replay(docs, rows[..n + 1], env).outcomes == Replay(docs, rows[..n], env).outcomes + [s.outcome]
  {
    assert rows[..n + 1][..n] == rows[..n];
  }

  /** The collection grows by exactly the number of rows counted as added;
      ids stay unique, and every document already present keeps its place
      and its id. */
  lemma {:induction false} ReplayShape(docs: seq<Doc<Record>>, rows: seq<Record>, env: nat -> RowEnv)
    ensures var r := Replay(docs, rows, env);
      && |r.docs| == |docs| + TallyOf(r.outcomes).added
      && (forall k :: 0 <= k < |docs| ==> r.docs[k].id == docs[k].id)
      && (UniqueIds(docs) ==> UniqueIds(r.docs))
    decreases |rows|
  {
    if |rows| > 0 {
      var init := rows[..|rows| - 1];
      ReplayShape(docs, init, env);
      var prev := Replay(docs, init, env);
      var data := RowData(rows[|rows| - 1]);
      var s := Upsert(prev.docs, data, env(|rows| - 1));
      UpsertFacts(prev.docs, data, env(|rows| - 1));
      TallyAppend(prev.outcomes, s.outcome);
    }
  }

  /** The outcomes of a prefix of the rows are a prefix of the outcomes. */
  lemma {:induction false} ReplayPrefix(docs: seq<Doc<Record>>, rows: seq<Record>, env: nat -> RowEnv, n: nat)
    requires n <= |rows|
    ensures Replay(docs, rows, env).outcomes[..n] == Replay(docs, rows[..n], env).outcomes
    decreases |rows| - n
  {
    if n == |rows| {
      assert rows[..n] == rows;
    } else {
      var init := rows[..|rows| - 1];
      ReplayPrefix(docs, init, env, n);
      assert init[..n] == rows[..n];
    }
  }

  /** The outcome of row n is decided against the collection the first n
      rows left. */
  lemma OutcomeOfRow(docs: seq<Doc<Record>>, rows: seq<Record>, env: nat -> RowEnv, n: nat)
    requires n < |rows|
    ensures Replay(docs, rows, env).outcomes[n] == Upsert(After(docs, rows, env, n), RowData(rows[n]), env(n)).outcome
  {
    var all := Replay(docs, rows, env).outcomes;
    var pre := Replay(docs, rows[..n + 1], env).outcomes;
    var o := Upsert(After(docs, rows, env, n), RowData(rows[n]), env(n)).outcome;
    assert all[..n + 1] == pre by {
      ReplayPrefix(docs, rows, env, n + 1);
    }
    assert pre == Replay(docs, rows[..n], env).outcomes + [o] by {
      ReplayStep(docs, rows, env, n);
    }
    assert pre[n] == o;
    assert all[n] == all[..n + 1][n];
  }

  /** A stored document whose key no row of the sheet carries is left
      exactly as it was. */
  lemma {:induction false} UnmatchedUntouched(docs: seq<Doc<Record>>, rows: seq<Record>, env: nat -> RowEnv, k: nat)
    requires k < |docs|
    requires forall i :: 0 <= i < |rows| ==> !SameKey(docs[k].body, RowData(rows[i]))
    ensures var r := Replay(docs, rows, env).docs; k < |r| && r[k] == docs[k]
    decreases |rows|
  {
    if |rows| > 0 {
      var init := rows[..|rows| - 1];
      UnmatchedUntouched(docs, init, env, k);
      var prev := Replay(docs, init, env).docs;
      var last := rows[|rows| - 1];
      assert !KeyIs(RowData(last))(prev[k]);
    }
  }

  /** Once some document has a key, it keeps having it: an update writes
      the same key, and nothing is ever removed. */
  lemma StepKeepsKey(docs: seq<Doc<Record>>, data: Record, e: RowEnv, key: Record)
    requires HasKey(docs, key)
    ensures HasKey(Upsert(docs, data, e).docs, key)
  {
    var k :| 0 <= k < |docs| && SameKey(docs[k].body, key);
    var s := Upsert(docs, data, e);
    assert SameKey(s.docs[k].body, key);
  }

  lemma AfterKeepsKey(docs: seq<Doc<Record>>, rows: seq<Record>, env: nat -> RowEnv, n: nat, key: Record)
    requires n < |rows|
    requires HasKey(After(docs, rows, env, n), key)
    ensures HasKey(After(docs, rows, env, n + 1), key)
  {
    ReplayStep(docs, rows, env, n);
    StepKeepsKey(After(docs, rows, env, n), RowData(rows[n]), env(n), key);
  }

  lemma {:induction false} KeyPersists(docs: seq<Doc<Record>>, rows: seq<Record>, env: nat -> RowEnv, m: nat, n: nat, key: Record)
    requires m <= n <= |rows|
    requires HasKey(After(docs, rows, env, m), key)
    ensures HasKey(After(docs, rows, env, n), key)
    decreases n - m
  {
    if m < n {
      KeyPersists(docs, rows, env, m, n - 1, key);
      AfterKeepsKey(docs, rows, env, n - 1, key);
    }
  }

  /** A row that went through leaves a document with its key. */
  lemma RowLeavesKey(docs: seq<Doc<Record>>, rows: seq<Record>, env: nat -> RowEnv, a: nat)
    requires a < |rows|
    requires Replay(docs, rows, env).outcomes[a] != Errored
    ensures HasKey(After(docs, rows, env, a + 1), RowData(rows[a]))
  {
    OutcomeOfRow(docs, rows, env, a);
    ReplayStep(docs, rows, env, a);
    UpsertFacts(After(docs, rows, env, a), RowData(rows[a]), env(a));
  }

  /** A row whose key is already present is an update, unless its store
      call fails. */
  lemma PresentKeyIsUpdate(docs: seq<Doc<Record>>, key: Record, data: Record, e: RowEnv)
    requires HasKey(docs, key) && SameKey(key, data)
    requires !e.fault
    ensures Upsert(docs, data, e).outcome == Updated
  {
    var k :| 0 <= k < |docs| && SameKey(docs[k].body, key);
    assert KeyIs(data)(docs[k]);
  }

  /** Rows are processed one after the other, so a row repeating the key of
      an earlier row of the same sheet that went through finds the document
      that row wrote, and is counted as updated (unless its own store call
      fails). */
  lemma RepeatedKeyIsUpdate(docs: seq<Doc<Record>>, rows: seq<Record>, env: nat -> RowEnv, a: nat, b: nat)
    requires a < b < |rows|
    requires SameKey(RowData(rows[a]), RowData(rows[b]))
    requires Replay(docs, rows, env).outcomes[a] != Errored
    requires !env(b).fault
    ensures Replay(docs, rows, env).outcomes[b] == Updated
  {
    RowLeavesKey(docs, rows, env, a);
    KeyPersists(docs, rows, env, a + 1, b, RowData(rows[a]));
    PresentKeyIsUpdate(After(docs, rows, env, b), RowData(rows[a]), RowData(rows[b]), env(b));
    OutcomeOfRow(docs, rows, env, b);
  }

  /** The uploaded file: its name and the rows of its first sheet, or None
      when the workbook cannot be read. */
  datatype UploadFile = UploadFile(name: string, sheet: Option<seq<Record>>)

  predicate EndsWith(s: string, suffix: string) {
    |suffix| <= |s| && s[|s| - |suffix|..] == suffix
  }

  /** `/\.(xlsx|xls)$/`. */
  predicate IsExcelName(name: string) {
    EndsWith(name, ".xlsx") || EndsWith(name, ".xls")
  }

  /** The checks made before the store is touched: a missing file, a name
      without an Excel extension, or an empty sheet is a 400, and a
      workbook that cannot be read a 500. */
  function Checked(file: Option<UploadFile>): (r: Response<seq<Record>>)
    ensures file.None? ==> r == Fail(BadRequest)
    ensures file.Some? && !IsExcelName(file.value.name) ==> r == Fail(BadRequest)
    ensures file.Some? && IsExcelName(file.value.name) && file.value.sheet.None? ==> r == Fail(ServerError)
    ensures file.Some? && file.value.sheet == Some([]) ==> r.Fail? && r.status == BadRequest
    ensures r.Ok? <==> file.Some? && IsExcelName(file.value.name) && file.value.sheet.Some? && |file.value.sheet.value| > 0
    ensures r.Ok? ==> file.value.sheet == Some(r.data)
  {
    if file.None? then Fail(BadRequest)
    else if !IsExcelName(file.value.name) then Fail(BadRequest)
    else match file.value.sheet
      case None => Fail(ServerError)
      case Some(rows) => if |rows| == 0 then Fail(BadRequest) else Ok(rows)
  }

  /** The handler: after the pre-checks, the loop over the rows leaves the
      collection and the counters exactly as `Replay` says. A row failing
      never stops the loop. */
  method Upload(c: Collection<Record>, file: Option<UploadFile>, env: nat -> RowEnv) returns (r: Response<Tally>)
    requires c.Valid()
    modifies c
    ensures c.Valid()
    ensures Checked(file).Fail? ==> r == Fail(Checked(file).status) && c.docs == old(c.docs)
    ensures Checked(file).Ok? ==>
      var run := Replay(old(c.docs), Checked(file).data, env);
      c.docs == run.docs && r == Ok(TallyOf(run.outcomes))
  {
    var pre := Checked(file);
    if pre.Fail? {
      return Fail(pre.status);
    }
    var rows := pre.data;
    var added, updated, errors := 0, 0, 0;
    ghost var outs: seq<Outcome> := [];
    var i := 0;
    while i < |rows|
      invariant 0 <= i <= |rows|
      invariant c.Valid()
      invariant Replay(old(c.docs), rows[..i], env) == Run(c.docs, outs)
      invariant Tally(added, updated, errors) == TallyOf(outs)
    {
      var data := RowData(rows[i]);
      var e := env(i);
      ghost var step := Upsert(c.docs, data, e);
      if e.fault {
        errors := errors + 1;
      } else {
        var j := c.FindOne(KeyIs(data));
        if j.Some? {
          c.SetAt(j.value, e.now, data);
          updated := updated + 1;
        } else {
          var ok := c.InsertOne(e.newId, e.now, data);
          if ok {
            added := added + 1;
          } else {
            errors := errors + 1;
          }
        }
      }
      assert c.docs == step.docs;
      TallyAppend(outs, step.outcome);
      outs := outs + [step.outcome];
      ReplayStep(old(c.docs), rows, env, i);
      i := i + 1;
    }
    assert rows[..i] == rows;
    return Ok(Tally(added, updated, errors));
  }
}
