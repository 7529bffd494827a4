/** The two reply envelopes of `util/Response.js`. */
module Response {
  import opened Wrappers
  import opened Json

  /** `Response.error(res, code, message)`: `{status: code, errors: {message}}`. */
  function Error(code: int, message: string): (r: Reply)
    ensures r.status == code
    ensures r.body.JObj? && r.body.fields.Keys == {"status", "errors"}
    ensures Get(r.body, "status") == Some(JNum(code))
    ensures ErrorMessage(r) == Some(message)
  {
    Reply(code, JObj(map["status" := JNum(code), "errors" := JObj(map["message" := JStr(message)])]))
  }

  /** `Response.success(res, code, data, message = 'success')`: `{status: code, message, data}`. */
  function Success(code: int, data: Json, message: string := "success"): (r: Reply)
    ensures r.status == code
    ensures r.body.JObj? && r.body.fields.Keys == {"status", "message", "data"}
    ensures Get(r.body, "status") == Some(JNum(code))
    ensures Get(r.body, "message") == Some(JStr(message))
    ensures Data(r) == Some(data)
    ensures ErrorMessage(r) == None
  {
    Reply(code, JObj(map["status" := JNum(code), "message" := JStr(message), "data" := data]))
  }

  /** The `errors.message` of a reply, when it has one. */
  function ErrorMessage(r: Reply): Option<string> {
    match Get(r.body, "errors")
    case Some(e) =>
      (match Get(e, "message")
       case Some(JStr(m)) => Some(m)
       case _ => None)
    case None => None
  }

  /** The `data` member of a reply, when it has one. */
  function Data(r: Reply): Option<Json> {
    Get(r.body, "data")
  }

  /**
   * The two envelopes never look alike: an error body has no `data` and no top-level `message`,
   * a success body has no `errors`, so no error reply equals a success reply.
   */
  lemma EnvelopesDisjoint(code: int, m: string, code': int, d: Json, m': string)
    ensures Data(Error(code, m)) == None && Get(Error(code, m).body, "message") == None
    ensures Get(Success(code', d, m').body, "errors") == None
    ensures Error(code, m) != Success(code', d, m')
  {
    assert "data" !in Error(code, m).body.fields.Keys;
    assert "message" !in Error(code, m).body.fields.Keys;
    assert "errors" !in Success(code', d, m').body.fields.Keys;
  }

  /** When the message is left out, `success` says `'success'`. */
  lemma SuccessDefaultMessage(code: int, d: Json)
    ensures Get(Success(code, d).body, "message") == Some(JStr("success"))
    ensures Success(code, d) == Success(code, d, "success")
  {
  }
  /**
   * The envelopes the article handlers and the older user handlers write by hand instead of
   * using the two above: `{status: 'error', message}` for a refusal ...
   */
  function Refusal(code: int, message: string): (r: Reply)
    ensures r.status == code && Get(r.body, "status") == Some(JStr("error"))
    ensures Get(r.body, "message") == Some(JStr(message)) && Get(r.body, "data") == None
  {
    Reply(code, JObj(map["status" := JStr("error"), "message" := JStr(message)]))
  }

  /** ... and `{status: 'success', data}` for a result. */
  function Found(code: int, data: Json): (r: Reply)
    ensures r.status == code && Get(r.body, "status") == Some(JStr("success"))
    ensures Get(r.body, "data") == Some(data)
  {
    Reply(code, JObj(map["status" := JStr("success"), "data" := data]))
  }

}
