/** The technician list page: client-side pagination of the fetched list
    five rows at a time, its range label and page buttons, and the form
    whose inputs are stored trimmed. */
module TechnicianPage {
  import opened Paging

  const ItemsPerPage: nat := 5

  /** `Array.prototype.slice(start, end)`: negative bounds count from the end. */
  function Slice<X>(s: seq<X>, start: int, end: int): (r: seq<X>)
    ensures 0 <= start < end ==> r == Window(s, start, end - start)
  {
    var from := if start < 0 then (if |s| + start < 0 then 0 else |s| + start) else Min(start, |s|);
    var to := if end < 0 then (if |s| + end < 0 then 0 else |s| + end) else Min(end, |s|);
    if to <= from then [] else s[from..to]
  }

  function ClientTotalPages(n: nat): nat {
    CeilDiv(n, ItemsPerPage)
  }

  function StartIndex(currentPage: int): int {
    (currentPage - 1) * ItemsPerPage
  }

  function EndIndex(currentPage: int): int {
    StartIndex(currentPage) + ItemsPerPage
  }

  /** `technicianData.slice(startIndex, endIndex)`: on every page the UI can
      reach (page 1 onwards) this is the fifth-sized window the server-side
      pagination would give, so all its properties carry over. */
  function CurrentData<X>(list: seq<X>, currentPage: int): (r: seq<X>)
    ensures currentPage >= 1 ==> r == PageOf(list, ItemsPerPage, currentPage)
    ensures currentPage >= 1 ==> |r| <= ItemsPerPage
    ensures currentPage >= 1 ==> forall k :: 0 <= k < |r| ==> r[k] == list[StartIndex(currentPage) + k]
  {
    Slice(list, StartIndex(currentPage), EndIndex(currentPage))
  }

  /** Reading pages 1 to totalPages of the client table gives the list back. */
  lemma ClientPagesReconstruct<X>(list: seq<X>)
    ensures Pages(list, ItemsPerPage, ClientTotalPages(|list|)) == list
  {
    PagesReconstruct(list, ItemsPerPage);
  }

  /** "전체 n개 중 a부터 b까지 표시": total, first and last row numbers shown. */
  datatype RangeLabel = RangeLabel(total: nat, first: int, last: int)

  function Label(n: nat, currentPage: int): RangeLabel {
    RangeLabel(n, StartIndex(currentPage) + 1, Min(EndIndex(currentPage), n))
  }

  /** On a page that exists, the label names exactly the rows of the table:
      rows `first` to `last` (counting from 1) are the page's rows in order. */
  lemma LabelMatchesRows<X>(list: seq<X>, currentPage: int)
    requires 1 <= currentPage <= ClientTotalPages(|list|)
    ensures var l := Label(|list|, currentPage);
      && l.total == |list|
      && l.last - l.first + 1 == |CurrentData(list, currentPage)|
      && forall k :: 0 <= k < |CurrentData(list, currentPage)| ==>
           CurrentData(list, currentPage)[k] == list[l.first - 1 + k]
  {
    var tp := ClientTotalPages(|list|);
    assert (tp - 1) * ItemsPerPage < |list|;
    assert (currentPage - 1) * ItemsPerPage <= (tp - 1) * ItemsPerPage;
  }

  /** "이전" is disabled on page 1. */
  predicate PrevDisabled(currentPage: int) {
    currentPage == 1
  }

  /** "다음" as written: disabled only when the current page equals totalPages. */
  predicate NextDisabled(currentPage: int, totalPages: nat) {
    currentPage == totalPages
  }

  datatype PageButton = Prev | Next | Number(index: nat)

  /** `handlePageChange` for a click on an enabled button (a disabled one
      does nothing); the numbered buttons are `index + 1` for index below
      totalPages. As written, the next-button test is `NextDisabled`. */
  function Click(currentPage: int, totalPages: nat, b: PageButton): (r: int)
    ensures currentPage >= 1 ==> r >= 1
    ensures b.Prev? ==> r == if PrevDisabled(currentPage) then currentPage else currentPage - 1
    ensures b.Next? ==> r == if NextDisabled(currentPage, totalPages) then currentPage else currentPage + 1
    ensures b.Number? && b.index < totalPages ==> r == b.index + 1
    ensures b.Number? && b.index >= totalPages ==> r == currentPage
  {
    match b
    case Prev => if PrevDisabled(currentPage) then currentPage else currentPage - 1
    case Next => if NextDisabled(currentPage, totalPages) then currentPage else currentPage + 1
    case Number(i) => if i < totalPages then i + 1 else currentPage
  }

  /** The page starts at 1 and only moves by clicks, so the slice start the
      table uses is never negative. */
  lemma ClicksKeepPagePositive(totalPages: nat, clicks: seq<PageButton>)
    ensures Replay(1, totalPages, clicks) >= 1
  {
    ReplayKeepsPositive(1, totalPages, clicks);
  }

  function Replay(currentPage: int, totalPages: nat, clicks: seq<PageButton>): int
    decreases |clicks|
  {
    if |clicks| == 0 then currentPage
    else Replay(Click(currentPage, totalPages, clicks[0]), totalPages, clicks[1..])
  }

  lemma {:induction false} ReplayKeepsPositive(currentPage: int, totalPages: nat, clicks: seq<PageButton>)
    requires currentPage >= 1
    ensures Replay(currentPage, totalPages, clicks) >= 1
    decreases |clicks|
  {
    if |clicks| > 0 {
      ReplayKeepsPositive(Click(currentPage, totalPages, clicks[0]), totalPages, clicks[1..]);
    }
  }

  /** As written, with no technicians (totalPages is 0) "다음" is enabled on
      page 1 and leads to an empty page 2, whose label reads "6 to 0 of 0". */
  lemma NextEnabledPastLastPage()
    ensures !NextDisabled(1, ClientTotalPages(0))
    ensures Click(1, ClientTotalPages(0), Next) == 2
    ensures forall list: seq<int> :: |list| == 0 ==> CurrentData(list, 2) == []
    ensures Label(0, 2) == RangeLabel(0, 6, 0)
  {
  }

  /** The evident intent: "다음" is disabled from the last page on. */
  predicate NextDisabledFixed(currentPage: int, totalPages: nat) {
    currentPage >= totalPages
  }

  /** With the corrected test, an enabled "다음" always leads to a page with rows. */
  lemma NextLeadsToRows<X>(list: seq<X>, currentPage: int)
    requires currentPage >= 1
    requires !NextDisabledFixed(currentPage, ClientTotalPages(|list|))
    ensures |CurrentData(list, currentPage + 1)| > 0
  {
    var tp := ClientTotalPages(|list|);
    assert currentPage <= tp - 1;
    assert currentPage * ItemsPerPage <= (tp - 1) * ItemsPerPage;
  }

  // ---- form inputs ----

  /** White space and line terminators as `String.prototype.trim` removes them. */
  predicate IsTrimSpace(c: char) {
    var n := c as int;
    n == 0x09 || n == 0x0A || n == 0x0B || n == 0x0C || n == 0x0D || n == 0x20
    || n == 0xA0 || n == 0x1680 || (0x2000 <= n <= 0x200A) || n == 0x2028 || n == 0x2029
    || n == 0x202F || n == 0x205F || n == 0x3000 || n == 0xFEFF
  }

  predicate IsTrimmed(s: string) {
    |s| == 0 || (!IsTrimSpace(s[0]) && !IsTrimSpace(s[|s| - 1]))
  }

  function TrimStart(s: string): (r: string)
    ensures |r| <= |s| && r == s[|s| - |r|..]
    ensures |r| == 0 || !IsTrimSpace(r[0])
    ensures |s| > 0 && !IsTrimSpace(s[0]) ==> r == s
    ensures forall k :: 0 <= k < |s| - |r| ==> IsTrimSpace(s[k])
    decreases |s|
  {
    if |s| > 0 && IsTrimSpace(s[0]) then
      var t := TrimStart(s[1..]);
      assert forall k :: 0 < k < |s| ==> s[k] == s[1..][k - 1];
      t
    else s
  }

  function TrimEnd(s: string): (r: string)
    ensures |r| <= |s| && r == s[..|r|]
    ensures |r| == 0 || !IsTrimSpace(r[|r| - 1])
    ensures |s| > 0 && !IsTrimSpace(s[|s| - 1]) ==> r == s
    ensures forall k :: |r| <= k < |s| ==> IsTrimSpace(s[k])
    decreases |s|
  {
    if |s| > 0 && IsTrimSpace(s[|s| - 1]) then
      var t := TrimEnd(s[..|s| - 1]);
      assert forall k :: 0 <= k < |s| - 1 ==> s[k] == s[..|s| - 1][k];
      t
    else s
  }

  /** `s[..i]` and `s[j..]` hold nothing but white space. */
  predicate OnlySpaceOutside(s: string, i: int, j: int) {
    && 0 <= i <= j <= |s|
    && (forall k :: 0 <= k < i ==> IsTrimSpace(s[k]))
    && (forall k :: j <= k < |s| ==> IsTrimSpace(s[k]))
  }

  /** `value.trim()`: the infix left after removing white space at both ends. */
  function Trim(s: string): (r: string)
    ensures IsTrimmed(r)
    ensures exists i, j :: OnlySpaceOutside(s, i, j) && r == s[i..j]
    ensures IsTrimmed(s) ==> r == s
  {
    var a := TrimStart(s);
    var r := TrimEnd(a);
    TrimSlice(s, a, r);
    r
  }

  /** Dropping white space from the start (giving `a`) and then from the
      end (giving `r`) keeps an infix with only white space around it. */
  lemma TrimSlice(s: string, a: string, r: string)
    requires |a| <= |s| && a == s[|s| - |a|..] && forall k :: 0 <= k < |s| - |a| ==> IsTrimSpace(s[k])
    requires |r| <= |a| && r == a[..|r|] && forall k :: |r| <= k < |a| ==> IsTrimSpace(a[k])
    ensures OnlySpaceOutside(s, |s| - |a|, |s| - |a| + |r|) && r == s[|s| - |a|..|s| - |a| + |r|]
  {
    var i := |s| - |a|;
    assert a == s[i..] && r == a[..|r|];
    forall k | i + |r| <= k < |s|
      ensures IsTrimSpace(s[k])
    {
      assert s[k] == a[k - i];
    }
  }

  lemma TrimIdempotent(s: string)
    ensures Trim(Trim(s)) == Trim(s)
  {
  }

  datatype TechnicianForm = TechnicianForm(name: string, phoneNumber: string, team: string, login: string, password: string)

  datatype FormField = Name | PhoneNumber | Team | Login | Password

  function FieldValue(f: TechnicianForm, field: FormField): string {
    match field
    case Name => f.name
    case PhoneNumber => f.phoneNumber
    case Team => f.team
    case Login => f.login
    case Password => f.password
  }

  /** `handleInputChange`: the edited input's value, trimmed, replaces that
      field. */
  function InputChange(f: TechnicianForm, field: FormField, value: string): TechnicianForm {
    var t := Trim(value);
    match field
    case Name => f.(name := t)
    case PhoneNumber => f.(phoneNumber := t)
    case Team => f.(team := t)
    case Login => f.(login := t)
    case Password => f.(password := t)
  }

  /** An input change stores the trimmed value in its own field and keeps
      every other field. */
  lemma InputChangeSets(f: TechnicianForm, field: FormField, value: string)
    ensures FieldValue(InputChange(f, field, value), field) == Trim(value)
    ensures forall other :: other != field ==> FieldValue(InputChange(f, field, value), other) == FieldValue(f, other)
  {
    match field
    case Name =>
    case PhoneNumber =>
    case Team =>
    case Login =>
    case Password =>
  }

  const EmptyForm := TechnicianForm("", "", "", "", "")

  predicate AllTrimmed(f: TechnicianForm) {
    forall field :: IsTrimmed(FieldValue(f, field))
  }

  /** A form opened empty and then edited only through its inputs holds
      trimmed values only. */
  lemma {:induction false} EditedFormIsTrimmed(f: TechnicianForm, edits: seq<(FormField, string)>)
    requires AllTrimmed(f)
    ensures AllTrimmed(ApplyInputs(f, edits))
    decreases |edits|
  {
    if |edits| > 0 {
      var g := InputChange(f, edits[0].0, edits[0].1);
      InputChangeSets(f, edits[0].0, edits[0].1);
      assert AllTrimmed(g) by {
        forall field ensures IsTrimmed(FieldValue(g, field)) {
          if field != edits[0].0 { assert FieldValue(g, field) == FieldValue(f, field); }
        }
      }
      EditedFormIsTrimmed(g, edits[1..]);
    }
  }

  function ApplyInputs(f: TechnicianForm, edits: seq<(FormField, string)>): TechnicianForm
    decreases |edits|
  {
    if |edits| == 0 then f else ApplyInputs(InputChange(f, edits[0].0, edits[0].1), edits[1..])
  }

  lemma EmptyFormTrimmed()
    ensures AllTrimmed(EmptyForm)
  {
    forall field ensures IsTrimmed(FieldValue(EmptyForm, field)) {}
  }
}
