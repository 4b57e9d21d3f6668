/**
 * `request.ts`: the axios instance for the API, whose request interceptor adds the bearer token
 * kept in local storage, and the `get` helper that merges its query parameters into the config.
 * Its response and error interceptors are `Http.ResponseHook` and `Http.ErrorHook`.
 */
module Request {
  import opened Wrappers
  import Js
  import Http

  /** The request timeout, in milliseconds. */
  const Timeout: nat := 15000

  /** The headers every request starts with. */
  const DefaultHeaders: map<string, string> := map["Content-Type" := "application/json;charset=utf-8"]

  /** `import.meta.env.VITE_API_BASE_URL || '/api'`. */
  function BaseUrl(env: Option<string>): (url: string)
    ensures Js.StrTruthy(env) ==> url == env.value
    ensures !Js.StrTruthy(env) ==> url == "/api"
    ensures url != ""
  {
    if Js.StrTruthy(env) then env.value else "/api"
  }

  /**
   * The request interceptor: `token` is `localStorage.getItem('token')`. It adds the
   * `Authorization` header when the token is truthy and hands back the same config object.
   */
  method RequestHook(config: Http.RequestConfig, token: Option<string>) returns (r: Http.RequestConfig)
    modifies config
    ensures r == config
    ensures config.headers == Http.WithBearer(old(config.headers), token)
    ensures config.data == old(config.data)
  {
    if token.Some? && token.value != "" {
      config.headers := config.headers["Authorization" := Http.Bearer(token.value)];
    }
    r := config;
  }

  /** `{ params, ...config }`: the config's own properties come last and win over `params`. */
  function GetConfig(params: Option<Js.Value>, config: Option<Http.Config>): (r: Http.Config)
    ensures "params" in r
    ensures config.Some? && "params" in config.value ==> r["params"] == config.value["params"]
    ensures config.None? || "params" !in config.value ==> r["params"] == params
    ensures forall k :: k != "params" ==>
      (k in r <==> config.Some? && k in config.value) &&
      (k in r ==> r[k] == config.value[k])
  {
    map["params" := params] + (if config.Some? then config.value else map[])
  }

  /** Without a config, or with one that has no `params`, the positional `params` are used. */
  lemma GetParamsPositional(params: Option<Js.Value>, config: Option<Http.Config>)
    requires config.None? || "params" !in config.value
    ensures GetConfig(params, config)["params"] == params
    ensures config.None? ==> GetConfig(params, config) == map["params" := params]
  {
  }

  /** A `params` in the caller's config overrides the positional one, whatever that is. */
  lemma GetParamsOverridden(p1: Option<Js.Value>, p2: Option<Js.Value>, config: Http.Config)
    requires "params" in config
    ensures GetConfig(p1, Some(config)) == GetConfig(p2, Some(config)) == config
  {
  }
}
