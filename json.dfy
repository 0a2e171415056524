/** The JSON objects the school routes read and store: string and number
    leaves keyed by field name, with the `x || ''` and `Number(x) || d`
    coercions the handlers apply to them. */
module Json {
  import opened Common

  /** A number is kept as an integer; coordinates are integers in an
      opaque fixed-point unit. */
  datatype Value = Str(s: string) | Num(n: int)

  /** The field names the handlers and pages use, each with its JSON
      spelling; `Other` stands for any other name. */
  datatype Key =
    | Division | Level | Name | Tech | IsTech | Address | TotalClasses
    | TeacherRoomNum | TeachersRoomNum | AdminRoomNum | Team | Lat | Lng | Lon | IsComp
    | Other(name: string)
  {
    function Spelling(): string {
      match this
      case Division => "division"
      case Level => "level"
      case Name => "name"
      case Tech => "tech"
      case IsTech => "istech"
      case Address => "address"
      case TotalClasses => "total_classes"
      case TeacherRoomNum => "teacher_room_num"
      case TeachersRoomNum => "teachers_room_num"
      case AdminRoomNum => "admin_room_num"
      case Team => "team"
      case Lat => "lat"
      case Lng => "lng"
      case Lon => "lon"
      case IsComp => "iscomp"
      case Other(name) => name
    }
  }

  type Record = map<Key, Value>

  /** JavaScript truthiness: the empty string and 0 are falsy. */
  predicate IsTruthy(v: Value) {
    match v
    case Str(s) => s != ""
    case Num(n) => n != 0
  }

  /** `rec[key] || ''`: a truthy field is kept as it is (a number stays a
      number), anything else, including an absent field, becomes `''`. */
  function TextOr(rec: Record, key: Key): (r: Value)
    ensures key in rec && IsTruthy(rec[key]) ==> r == rec[key]
    ensures !(key in rec && IsTruthy(rec[key])) ==> r == Str("")
  {
    if key in rec && IsTruthy(rec[key]) then rec[key] else Str("")
  }

  predicate IsDigit(c: char) {
    '0' <= c <= '9'
  }

  function DigitsValue(s: string): int
    requires forall i :: 0 <= i < |s| ==> IsDigit(s[i])
  {
    if |s| == 0 then 0 else 10 * DigitsValue(s[..|s| - 1]) + (s[|s| - 1] as int - '0' as int)
  }

  function Pow10(n: nat): nat {
    if n == 0 then 1 else 10 * Pow10(n - 1)
  }

  /** Appending a digit shifts the value one decimal place and adds the digit. */
  lemma DigitsValueAppend(s: string, c: char)
    requires forall i :: 0 <= i < |s| ==> IsDigit(s[i])
    requires IsDigit(c)
    ensures DigitsValue(s + [c]) == 10 * DigitsValue(s) + (c as int - '0' as int)
  {
    assert (s + [c])[..|s|] == s;
  }

  /** A run of n decimal digits denotes a value from 0 up to, but not
      including, 10 to the n. */
  lemma {:induction false} DigitsValueBound(s: string)
    requires forall i :: 0 <= i < |s| ==> IsDigit(s[i])
    ensures 0 <= DigitsValue(s) < Pow10(|s|)
    decreases |s|
  {
    if |s| > 0 {
      DigitsValueBound(s[..|s| - 1]);
    }
  }

  /** `Number(v)` of a present field, restricted to the strings the forms
      and sheets produce: `''` is 0, a run of decimal digits is its value,
      and any other string is `NaN` (None). */
  function ToNumber(v: Value): (r: Option<int>)
    ensures v.Num? ==> r == Some(v.n)
    ensures v == Str("") ==> r == Some(0)
    ensures v.Str? && (exists i :: 0 <= i < |v.s| && !IsDigit(v.s[i])) ==> r.None?
    ensures v.Str? && (forall i :: 0 <= i < |v.s| ==> IsDigit(v.s[i])) ==> r == Some(DigitsValue(v.s))
  {
    match v
    case Num(n) => Some(n)
    case Str(s) =>
      if forall i :: 0 <= i < |s| ==> IsDigit(s[i]) then Some(DigitsValue(s)) else None
  }

  /** `Number(rec[key]) || d`: `NaN` (an absent field or a non-numeric
      string) and 0 both give `d`. */
  function NumberOr(rec: Record, key: Key, d: int): (r: int)
    ensures key !in rec ==> r == d
    ensures key in rec && ToNumber(rec[key]).Some? && ToNumber(rec[key]).value != 0 ==> r == ToNumber(rec[key]).value
    ensures key in rec && (ToNumber(rec[key]).None? || ToNumber(rec[key]) == Some(0)) ==> r == d
  {
    if key in rec && ToNumber(rec[key]).Some? && ToNumber(rec[key]).value != 0 then ToNumber(rec[key]).value else d
  }
}
