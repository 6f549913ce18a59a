/** The JSON replies the route handlers send, reduced to what the handlers decide. */
module Http {
  import opened Wrappers

  /**
   * `res.status(status).json(...)`: `message` and `kind` are the body's `message`
   * and `type` fields ("" when the handler sends none), `detail` its `error` field,
   * and `data` the payload of a successful reply.
   */
  datatype Reply<T> = Reply(status: int, message: string, kind: string, detail: string, data: Option<T>)

  function Success<T>(status: int, data: T): (r: Reply<T>)
    ensures r.status == status && r.data == Some(data)
  {
    Reply(status, "", "", "", Some(data))
  }

  function Failure<T>(status: int, message: string, kind: string): (r: Reply<T>)
    ensures r.status == status && r.data.None?
  {
    Reply(status, message, kind, "", None)
  }

  /** A reply without a payload, as a reply of any payload type. */
  function NoData<T>(r: Reply<()>): (q: Reply<T>)
    ensures q.status == r.status && q.message == r.message && q.kind == r.kind && q.detail == r.detail && q.data.None?
  {
    Reply(r.status, r.message, r.kind, r.detail, None)
  }

  /** What a handler does to the `token` cookie. */
  datatype CookieAction = KeepCookie | SetToken(token: string) | ClearToken

  /** JavaScript truthiness of an optional string field: `undefined`, `null` and `""` are falsy. */
  predicate Truthy(s: Option<string>)
  {
    s.Some? && s.value != ""
  }
}
