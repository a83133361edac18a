/** The parts of the web framework and of the cookie session that the
    handlers observe. A response's status is the first one written: a later
    write to the same response changes the body, never the status. */
module Http {
  import opened Common
  import opened Models

  /** The status a response ends with after one more write of code. */
  function Written(current: Option<int>, code: int): Option<int>
  {
    if current.Some? then current else Some(code)
  }

  /** The per-request context. */
  class Context {
    var status: Option<int>
    var aborted: bool

    constructor ()
      ensures status.None? && !aborted
    {
      status := None;
      aborted := false;
    }

    /** ctx.JSON(code, ...) */
    method JSON(code: int)
      modifies this
      ensures status == Written(old(status), code) && aborted == old(aborted)
    {
      status := Written(status, code);
    }

    /** ctx.Status(code): the status alone, with no body. */
    method Status(code: int)
      modifies this
      ensures status == Written(old(status), code) && aborted == old(aborted)
    {
      status := Written(status, code);
    }

    /** ctx.AbortWithStatusJSON(code, ...): writes and stops the handler chain. */
    method AbortWithStatusJSON(code: int)
      modifies this
      ensures status == Written(old(status), code) && aborted
    {
      status := Written(status, code);
      aborted := true;
    }

    /** The Recovery middleware's answer to a handler that panics (an index
        out of range, say): c.AbortWithStatus(500). */
    method Recover()
      modifies this
      ensures status == Written(old(status), 500) && aborted
    {
      status := Written(status, 500);
      aborted := true;
    }
  }

  /** A JSON value as a request binder sees it; numbers are integers here,
      and arrays and objects are one opaque case. */
  datatype Json = JNull | JBool(b: bool) | JNum(n: int) | JStr(s: string) | JOther

  /** A JSON object; a member name occurs once. */
  type JsonObject = map<string, Json>

  /** What session.Get("user") yields: nothing, a value of another type, or a
      user projection. */
  datatype SessionValue = NoUser | OtherValue | UserSession(user: UserResponse)

  /** The cookie session: the value the next request will read. */
  class Session {
    var value: SessionValue

    constructor (v: SessionValue)
      ensures value == v
    {
      value := v;
    }
  }
}
