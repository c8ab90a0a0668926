/** JSON values as `JSON.parse` produces them, and JavaScript's thrown errors. */
module Json {
  import opened Wrappers

  /** A parsed JSON document. Numbers are kept as integers; object members
      keep their textual order. */
  datatype Json =
    | JNull
    | JBool(b: bool)
    | JNum(n: int)
    | JStr(s: string)
    | JArr(items: seq<Json>)
    | JObj(members: seq<(string, Json)>)

  /** The `code` property of a thrown error: absent, an HTTP status, or a name such as 'EAUTH'. */
  datatype ErrorCode = NoCode | HttpStatus(status: int) | CodeName(name: string)

  /** A thrown JavaScript error: what the code reads of it is `message` and `code`. */
  datatype Error = Error(message: string, code: ErrorCode)

  /** The member `key` of an object, the last one when the text repeated it
      (as `JSON.parse` keeps the last). */
  function Member(members: seq<(string, Json)>, key: string): Option<Json> {
    if |members| == 0 then None
    else if members[|members| - 1].0 == key then Some(members[|members| - 1].1)
    else Member(members[..|members| - 1], key)
  }

  /** The property read `v[key]`: on `null` it throws a TypeError; on any
      other value it gives the member, or `undefined` (None) for a value
      that has no such member. */
  function PropertyRead(v: Json, key: string): (r: Result<Option<Json>, Error>)
    ensures r.Failure? <==> v.JNull?
    ensures !v.JObj? && !v.JNull? ==> r == Success(None)
  {
    match v
    case JNull => Failure(Error("Cannot read properties of null (reading '" + key + "')", NoCode))
    case JObj(members) => Success(Member(members, key))
    case _ => Success(None)
  }
}
