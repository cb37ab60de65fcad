// Loosely typed request payload values, as a JSON body decodes them in
// Python, and the result type the validators use in place of raising.

module Values {

  /** A decoded JSON payload value. Python's `type(x) is int` holds for
      VInt only: a JSON `true` decodes to a bool, a JSON `1.0` to a float
      (VOther, together with arrays and objects). */
  datatype Value = VInt(i: int) | VStr(s: string) | VBool(b: bool) | VNull | VOther

  /** A decoded JSON object sent as a request body. */
  type Payload = map<string, Value>

  /** `req.get(key)`: a missing key reads as None. */
  function Field(req: Payload, key: string): Value
  {
    if key in req then req[key] else VNull
  }

  datatype Option<T> = None | Some(value: T)

  /** A validator either hands back the value to store or raises
      (`ValueError`, or the not-found error of the foreign keys). */
  datatype Result<T> = Ok(value: T) | Err(error: string)
}
