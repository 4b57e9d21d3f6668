/**
 * What the two axios wrappers share: the request config their request interceptors rewrite,
 * the rule that adds the bearer token, the response interceptor's classification of the
 * server's `{ code, message }` envelope, and the error interceptor of `request.ts`.
 */
module Http {
  import opened Wrappers
  import opened Js

  /** `config.data`: nothing, a `FormData` instance, or a value sent as JSON. */
  datatype Body = NoBody | Form | Json(value: Js.Value)

  /** The own properties of an `AxiosRequestConfig` object; `None` is a property set to `undefined`. */
  type Config = map<string, Option<Js.Value>>

  /** The response an axios error carries, when the server answered. */
  datatype ErrorResponse = ErrorResponse(status: int, data: Js.Value)

  /** An axios error; `response` is absent for network errors and timeouts. */
  datatype AxiosError = AxiosError(response: Option<ErrorResponse>)

  /** Why a promise returned by an interceptor rejects. */
  datatype Rejection =
    | ApiError(message: Js.Value)   // `new Error(res.message || 'Error')`
    | Transport(error: AxiosError)  // the original axios error, passed on
    | TypeError                     // a property read on `null` or `undefined`

  /** How the promise returned by an interceptor settles. */
  datatype Settled<T> = Resolved(value: T) | Rejected(reason: Rejection)

  /** The axios request config, which the request interceptors change in place. */
  class RequestConfig {
    var headers: map<string, string>
    var data: Body

    constructor (headers: map<string, string>, data: Body)
      ensures this.headers == headers && this.data == data
    {
      this.headers := headers;
      this.data := data;
    }
  }

  /** The `Authorization` header value for a token. */
  function Bearer(token: string): string {
    "Bearer " + token
  }

  /** `if (token) config.headers['Authorization'] = \`Bearer ${token}\``. */
  function WithBearer(headers: map<string, string>, token: Option<string>): (r: map<string, string>)
    ensures Js.StrTruthy(token) ==> "Authorization" in r && r["Authorization"] == Bearer(token.value)
    ensures !Js.StrTruthy(token) ==> r == headers
    ensures r.Keys == headers.Keys + (if Js.StrTruthy(token) then {"Authorization"} else {})
    ensures forall h :: h in headers && h != "Authorization" ==> h in r && r[h] == headers[h]
  {
    if Js.StrTruthy(token) then headers["Authorization" := Bearer(token.value)] else headers
  }

  /** `res.code`, or `undefined`; reading it from `null` throws, which the caller handles. */
  function Code(res: Js.Value): (c: Option<Js.Value>)
    requires res != JNull
  {
    Field(res, "code")
  }

  /** The envelope is accepted when `res.code` is falsy or exactly the number 200. */
  predicate Accepted(res: Js.Value)
    requires res != JNull
  {
    !OptTruthy(Code(res)) || Code(res) == Some(JNumber(200.0))
  }

  /** `res.message || 'Error'`. */
  function ErrorMessage(res: Js.Value): (m: Js.Value)
    requires res != JNull
    ensures Js.Truthy(m)
    ensures OptTruthy(Field(res, "message")) ==> m == Field(res, "message").value
  {
    if OptTruthy(Field(res, "message")) then Field(res, "message").value else JString("Error")
  }

  /**
   * The response interceptor, applied to `response.data`: the whole envelope is passed on when
   * its code is accepted, and the promise rejects with the envelope's message otherwise.
   */
  function ResponseHook(res: Js.Value): (r: Settled<Js.Value>)
    ensures res == JNull ==> r == Rejected(TypeError)
    ensures res != JNull ==> (r.Resolved? <==> Accepted(res))
    ensures r.Resolved? ==> r.value == res
    ensures res != JNull && !Accepted(res) ==> r == Rejected(ApiError(ErrorMessage(res)))
  {
    if res == JNull then Rejected(TypeError)
    else if OptTruthy(Code(res)) && Code(res) != Some(JNumber(200.0)) then
      Rejected(ApiError(ErrorMessage(res)))
    else Resolved(res)
  }

  /** An envelope object with its `code` property set to `c`. */
  function WithCode(fields: map<string, Js.Value>, c: Js.Value): Js.Value {
    JObject(fields["code" := c])
  }

  /**
   * The code takes part only through "accepted or not": any two failing codes, 401 among them,
   * settle the same envelope the same way.
   */
  lemma FailingCodesAlike(fields: map<string, Js.Value>, c1: Js.Value, c2: Js.Value)
    requires Js.Truthy(c1) && c1 != JNumber(200.0)
    requires Js.Truthy(c2) && c2 != JNumber(200.0)
    ensures ResponseHook(WithCode(fields, c1)) == ResponseHook(WithCode(fields, c2))
    ensures ResponseHook(WithCode(fields, c1)).Rejected?
  {
    var r1, r2 := WithCode(fields, c1), WithCode(fields, c2);
    assert Field(r1, "message") == Field(r2, "message");
  }

  /** An envelope without a code, or with code 200, comes back whole. */
  lemma AbsentOr200Passes(fields: map<string, Js.Value>)
    requires "code" !in fields || fields["code"] == JNumber(200.0)
    ensures ResponseHook(JObject(fields)) == Resolved(JObject(fields))
  {
  }

  /**
   * The error interceptor of `request.ts`: whatever the status, the switch over it has empty
   * branches, and the promise rejects with the original error.
   */
  function ErrorHook(e: AxiosError): (r: Settled<Js.Value>)
    ensures r.Rejected? && r.reason.Transport? && r.reason.error == e
  {
    Rejected(Transport(e))
  }
}
