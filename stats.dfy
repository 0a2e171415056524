/** `GET /api/stats`: the dashboard's three counts. */
module Stats {
  import opened Common
  import opened Store
  import opened Json
  import Technicians
  import Schools

  /** `{'data.iscomp': 1}`. */
  predicate IsCompleted(d: Doc<Record>) {
    IsComp in d.body && d.body[IsComp] == Num(1)
  }

  /** The number of completed schools. */
  function CompletedCount(docs: seq<Doc<Record>>): (n: nat)
    ensures n <= |docs|
    ensures n == 0 <==> forall k :: 0 <= k < |docs| ==> !IsCompleted(docs[k])
    ensures n == |docs| <==> forall k :: 0 <= k < |docs| ==> IsCompleted(docs[k])
  {
    if |docs| == 0 then 0
    else CompletedCount(docs[..|docs| - 1]) + (if IsCompleted(docs[|docs| - 1]) then 1 else 0)
  }

  datatype Counts = Counts(technicianCount: nat, schoolCount: nat, completedSchoolCount: nat)

  /** The technicians and schools are counted in full and the completed
      schools among the schools, so the last count never exceeds the
      second. */
  function GetStats(techs: seq<Doc<Technicians.Technician>>, schools: seq<Doc<Record>>): (r: Counts)
    ensures r.technicianCount == |techs| && r.schoolCount == |schools|
    ensures r.completedSchoolCount == CompletedCount(schools) <= r.schoolCount
  {
    Counts(|techs|, |schools|, CompletedCount(schools))
  }

  /** Replacing one school's `data` changes the count by whether the old
      and the new data were marked complete. */
  lemma {:induction false} CountAfterReplace(docs: seq<Doc<Record>>, i: nat, d: Doc<Record>)
    requires i < |docs|
    ensures CompletedCount(docs[i := d]) + (if IsCompleted(docs[i]) then 1 else 0)
         == CompletedCount(docs) + (if IsCompleted(d) then 1 else 0)
    decreases |docs|
  {
    var after := docs[i := d];
    var n := |docs| - 1;
    if i < n {
      CountAfterReplace(docs[..n], i, d);
      assert after[..n] == docs[..n][i := d];
    } else {
      assert after[..n] == docs[..n];
    }
  }

  /** A school written by the settings page's `POST` or `PUT` has no
      `iscomp` field, so a `PUT` on a completed school takes it out of the
      completed count. */
  lemma EditUncompletes(docs: seq<Doc<Record>>, i: nat, input: Record)
    requires i < |docs| && IsCompleted(docs[i])
    ensures var after := docs[i := Doc(docs[i].id, docs[i].createdAt, Schools.SchoolData(input))];
      CompletedCount(after) == CompletedCount(docs) - 1
  {
    var d := Doc(docs[i].id, docs[i].createdAt, Schools.SchoolData(input));
    assert IsComp !in Schools.SchoolKeys;
    CountAfterReplace(docs, i, d);
  }
}
