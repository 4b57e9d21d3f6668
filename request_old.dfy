/**
 * `request-old.ts`: the axios instance for uploads. Its request interceptor takes the token from
 * the user store and switches `FormData` requests to a multipart content type, its `post`
 * helper builds a default config for `FormData`, and its error interceptor reads the server's
 * `msg` before checking that there is a response at all. Its response interceptor is
 * `Http.ResponseHook`.
 */
module RequestOld {
  import opened Wrappers
  import opened Js
  import Http
  import User

  const BaseUrl: string := "/upload"
  const Timeout: nat := 15000
  const JsonContentType: string := "application/json;charset=utf-8"
  const MultipartContentType: string := "multipart/form-data"

  /** The headers every request starts with. */
  const DefaultHeaders: map<string, string> := map["Content-Type" := JsonContentType]

  /** The headers after the request interceptor: the bearer token, then the multipart content type for `FormData`. */
  function PreparedHeaders(headers: map<string, string>, token: Option<string>, data: Http.Body): (r: map<string, string>)
    ensures data.Form? ==> "Content-Type" in r && r["Content-Type"] == MultipartContentType
    ensures !data.Form? && "Content-Type" in headers ==> "Content-Type" in r && r["Content-Type"] == headers["Content-Type"]
    ensures Js.StrTruthy(token) ==> "Authorization" in r && r["Authorization"] == Http.Bearer(token.value)
    ensures !Js.StrTruthy(token) ==> ("Authorization" in r <==> "Authorization" in headers)
    ensures !Js.StrTruthy(token) && "Authorization" in headers ==> r["Authorization"] == headers["Authorization"]
    ensures r.Keys == headers.Keys + (if Js.StrTruthy(token) then {"Authorization"} else {}) +
                      (if data.Form? then {"Content-Type"} else {})
    ensures forall h :: h in headers && h != "Authorization" && h != "Content-Type" ==> r[h] == headers[h]
  {
    var withToken := Http.WithBearer(headers, token);
    if data.Form? then withToken["Content-Type" := MultipartContentType] else withToken
  }

  /** A JSON request that starts from the default headers keeps the JSON content type. */
  lemma JsonKeepsDefault(token: Option<string>, data: Http.Body)
    requires !data.Form?
    ensures PreparedHeaders(DefaultHeaders, token, data)["Content-Type"] == JsonContentType
  {
  }

  /** The request interceptor; the token is read from the user store. */
  method RequestHook(config: Http.RequestConfig, store: User.UserStore) returns (r: Http.RequestConfig)
    modifies config
    ensures r == config
    ensures config.headers == PreparedHeaders(old(config.headers), store.token, config.data)
    ensures config.data == old(config.data)
  {
    var token := store.token;
    if token.Some? && token.value != "" {
      config.headers := config.headers["Authorization" := Http.Bearer(token.value)];
    }
    if config.data.Form? {
      config.headers := config.headers["Content-Type" := MultipartContentType];
    }
    r := config;
  }

  /** The default config of `post`: multipart headers for `FormData`, nothing otherwise. */
  function DefaultPostConfig(data: Http.Body): Http.Config {
    if data.Form? then map["headers" := Some(JObject(map["Content-Type" := JString(MultipartContentType)]))]
    else map[]
  }

  /** `{ ...defaultConfig, ...config }`. */
  function PostConfig(data: Http.Body, config: Option<Http.Config>): (r: Http.Config)
    ensures config.Some? && "headers" in config.value ==> "headers" in r && r["headers"] == config.value["headers"]
    ensures data.Form? && (config.None? || "headers" !in config.value) ==>
      "headers" in r && r["headers"] == Some(JObject(map["Content-Type" := JString(MultipartContentType)]))
    ensures !data.Form? ==> r == (if config.Some? then config.value else map[])
    ensures forall k :: k != "headers" ==>
      (k in r <==> config.Some? && k in config.value) && (k in r ==> r[k] == config.value[k])
  {
    DefaultPostConfig(data) + (if config.Some? then config.value else map[])
  }

  /**
   * Caller headers replace the default headers object as a whole: the multipart entry is lost
   * from the `post` config even for `FormData` (the request interceptor sets it again).
   */
  lemma CallerHeadersReplaceDefault(headers: Option<Js.Value>)
    ensures PostConfig(Http.Form, Some(map["headers" := headers])) == map["headers" := headers]
  {
  }

  /** `error.response.data.msg || 'Error'`, evaluated before the `if (error.response)` check. */
  function ErrorHookAsWritten(e: Http.AxiosError): (r: Http.Settled<Js.Value>)
    ensures r.Rejected?
    ensures r.reason == Http.TypeError <==> e.response.None? || e.response.value.data == JNull
    ensures r.reason != Http.TypeError ==> r == Http.ErrorHook(e)
  {
    if e.response.None? || e.response.value.data == JNull then Http.Rejected(Http.TypeError)
    else Http.Rejected(Http.Transport(e))
  }

  /**
   * A network error or a timeout has no response: reading `data` on it throws, and the caller
   * receives a `TypeError` in place of the axios error the hook was written to pass on.
   */
  lemma ErrorHookLosesNetworkError()
    ensures ErrorHookAsWritten(Http.AxiosError(None)) == Http.Rejected(Http.TypeError)
    ensures ErrorHookAsWritten(Http.AxiosError(None)) != Http.ErrorHook(Http.AxiosError(None))
  {
  }

  /**
   * Whenever the server answered with a body, the hook as written already behaves as intended:
   * it passes the original error on (`Http.ErrorHook`, whatever the status).
   */
  lemma AsWrittenAgreesWithResponse(e: Http.AxiosError)
    requires e.response.Some? && e.response.value.data != JNull
    ensures ErrorHookAsWritten(e) == Http.ErrorHook(e)
  {
  }
}
