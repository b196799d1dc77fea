/** Values shared by the server store and the client views. */
module Common {

  /** A document id (a Mongo ObjectId), abstracted to a natural number. */
  type Id = nat

  datatype Option<+T> = None | Some(value: T)

  /** How a request handler ends when it does not return its record. */
  datatype Failure =
    | NotFound    // the handler answers 404
    | Invalid     // schema validation failed; the handler answers 500
    | Unhandled   // the handler dereferences a missing document and throws; no response is sent

  datatype Result<+T> = Ok(value: T) | Err(failure: Failure)

  /** JavaScript truthiness of an optional string: absent and "" are falsy. */
  predicate Truthy(s: Option<string>)
  {
    s.Some? && s.value != ""
  }

  /** `s.startsWith(prefix)` */
  predicate StartsWith(s: string, prefix: string)
    ensures StartsWith(s, prefix) <==>
              |prefix| <= |s| && forall i :: 0 <= i < |prefix| ==> s[i] == prefix[i]
  {
    |prefix| <= |s| && s[..|prefix|] == prefix
  }
}
