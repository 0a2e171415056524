/** Values shared by every handler: optional values, the status codes the
    handlers answer with, timestamps and the store's object identifiers. */
module Common {

  datatype Option<T> = None | Some(value: T) {
    function GetOr(default: T): T {
      if Some? then value else default
    }
  }

  /** The failure statuses the route handlers return. */
  datatype Status = BadRequest | Unauthorized | NotFound | ServerError {
    function Code(): nat {
      match this
      case BadRequest => 400
      case Unauthorized => 401
      case NotFound => 404
      case ServerError => 500
    }
  }

  /** The JSON envelope: `{success: true, data}` or `{success: false, error}` with a status. */
  datatype Response<D> = Ok(data: D) | Fail(status: Status)

  /** Milliseconds since the epoch; the clock is always passed in. */
  type Timestamp = nat

  /** A coordinate in ten-thousandths of a degree, treated as an opaque value. */
  type Coord = int

  /** JavaScript truthiness of an optional string: `null`, `undefined` and `''` are falsy. */
  predicate Truthy(s: Option<string>) {
    s.Some? && s.value != ""
  }

  predicate IsHexDigit(c: char) {
    '0' <= c <= '9' || 'a' <= c <= 'f' || 'A' <= c <= 'F'
  }

  predicate IsLowerHexDigit(c: char) {
    '0' <= c <= '9' || 'a' <= c <= 'f'
  }

  /** The canonical text of an object id: 24 lower-case hexadecimal digits. */
  predicate IsCanonicalHex(s: string) {
    |s| == 24 && forall i :: 0 <= i < |s| ==> IsLowerHexDigit(s[i])
  }

  type ObjectId = s: string | IsCanonicalHex(s) witness "000000000000000000000000"

  function LowerHex(c: char): (r: char)
    requires IsHexDigit(c)
    ensures IsLowerHexDigit(r)
    ensures IsLowerHexDigit(c) ==> r == c
  {
    if 'A' <= c <= 'F' then (c as int - 'A' as int + 'a' as int) as char else c
  }

  /** `new ObjectId(s)` on a string: 24 hexadecimal digits of either case are
      accepted and normalised to lower case; anything else throws. */
  function ParseObjectId(s: string): (r: Option<ObjectId>)
    ensures r.Some? <==> |s| == 24 && forall i :: 0 <= i < |s| ==> IsHexDigit(s[i])
    ensures r.Some? ==> forall i :: 0 <= i < 24 ==> r.value[i] == LowerHex(s[i])
  {
    if |s| == 24 && forall i :: 0 <= i < |s| ==> IsHexDigit(s[i]) then
      var id: ObjectId := seq(24, i requires 0 <= i < 24 => LowerHex(s[i]));
      Some(id)
    else
      None
  }

  /** An object id's own text (`toHexString`) parses back to the same id. */
  lemma ParseCanonical(id: ObjectId)
    ensures ParseObjectId(id) == Some(id)
  {
    var r := ParseObjectId(id);
    assert r.Some?;
    assert r.value == id;
  }

  /** The id a handler queries with, as `new ObjectId(x)` builds it from a JSON
      body field: a missing field makes the driver generate a fresh id (which
      matches no stored document), a string is parsed. */
  datatype IdRef = Generated | Given(id: ObjectId)

  function BodyIdRef(raw: Option<string>): (r: Option<IdRef>)
    ensures raw.None? ==> r == Some(Generated)
    ensures raw.Some? ==> (r.Some? <==> ParseObjectId(raw.value).Some?)
    ensures r.Some? && r.value.Given? ==> raw.Some? && ParseObjectId(raw.value) == Some(r.value.id)
  {
    match raw
    case None => Some(Generated)
    case Some(s) =>
      match ParseObjectId(s)
      case None => None
      case Some(id) => Some(Given(id))
  }

  /** The id of a DELETE or view-increment request, read from the query
      string: a falsy `id` is a 400, an unparsable one throws (500). */
  function QueryObjectId(raw: Option<string>): (r: Response<ObjectId>)
    ensures r == Fail(BadRequest) <==> !Truthy(raw)
    ensures r == Fail(ServerError) <==> Truthy(raw) && ParseObjectId(raw.value).None?
    ensures r.Ok? ==> Truthy(raw) && ParseObjectId(raw.value) == Some(r.data)
  {
    if !Truthy(raw) then Fail(BadRequest)
    else
      match ParseObjectId(raw.value)
      case None => Fail(ServerError)
      case Some(id) => Ok(id)
  }
}
