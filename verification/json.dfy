/** The generic JSON values that encoding/json produces when it decodes into
    an empty interface, as the proxy's handlers see them. */
module Json {
  import opened Wrappers

  /** A decoded JSON value: objects become string-keyed maps, arrays become
      lists, numbers are kept as opaque values and never computed with. */
  datatype JValue =
    | JNull
    | JBool(b: bool)
    | JNum(n: real)
    | JStr(str: string)
    | JList(items: seq<JValue>)
    | JObj(fields: map<string, JValue>)

  /** The top-level object a handler decodes the response body into. */
  type Object = map<string, JValue>

  /** The map a handler reads after decoding: when decoding fails the map
      variable stays nil, and looking a key up in a nil map finds nothing,
      so an undecodable body reads as the empty object. */
  function BodyObject(decoded: Option<Object>): (obj: Object)
    ensures decoded.None? ==> forall key :: key !in obj
    ensures decoded.Some? ==> obj == decoded.value
  {
    match decoded
    case None => map[]
    case Some(obj) => obj
  }
}
