/**
 * The host environment the request helpers run in, as far as they
 * observe it: the global `fetch` binding, JSON.stringify, an optional
 * global named `method`, and whether `window` is an object. `fetch` and
 * the response it resolves to are abstract: the model states what
 * `fetch` is called with and what is done with what it gives back.
 */
module Host {
  import opened Js

  /**
   * A resolved response: `json` is None when `res.json` is not a
   * function, otherwise what `await res.json()` gives (a value or a
   * rejection); `self` is the response as a value.
   */
  datatype Response = Response(json: Option<Result<Value>>, self: Value)

  /** `fetch(url, init)`: a resolved response or a rejection. */
  type FetchFn = (string, map<string, Value>) -> Result<Response>

  /** The global binding `fetch`: absent, bound to a non-function, or a function. */
  datatype FetchBinding = Unbound | NotAFunction | Bound(call: FetchFn)

  datatype Env = Env(
    fetch: FetchBinding,
    stringify: Value -> Result<Value>,   // JSON.stringify: a JSON text, undefined, or a thrown TypeError
    globalMethod: Option<Value>,         // a global property named `method`, if the host has one
    windowIsObject: bool)                // `typeof window === "object"`

  /** `typeof fetch === "function"` */
  predicate FetchIsFunction(env: Env) {
    env.fetch.Bound?
  }

  /**
   * Evaluating the call `fetch(url, init)` whose arguments evaluate to
   * `args`: the callee is looked up first (an unbound name throws
   * ReferenceError), then the arguments are evaluated, then a callee that
   * is not a function throws TypeError.
   */
  function CallFetch(env: Env, args: Result<(string, map<string, Value>)>): (r: Result<Response>)
    ensures env.fetch.Unbound? ==> r == Err(ReferenceError("fetch"))
    ensures !env.fetch.Unbound? && args.Err? ==> r == Err(args.error)
    ensures env.fetch.NotAFunction? && args.Ok? ==> r == Err(TypeError)
    ensures env.fetch.Bound? && args.Ok? ==> r == env.fetch.call(args.value.0, args.value.1)
  {
    match env.fetch
    case Unbound => Err(ReferenceError("fetch"))
    case NotAFunction => if args.Err? then Err(args.error) else Err(TypeError)
    case Bound(f) => if args.Err? then Err(args.error) else f(args.value.0, args.value.1)
  }

  /** `.then((response) => response.json())`: a response without a json function throws TypeError. */
  function Json(res: Response): (r: Result<Value>)
    ensures res.json.None? ==> r == Err(TypeError)
    ensures res.json.Some? ==> r == res.json.value
  {
    match res.json
    case None => Err(TypeError)
    case Some(body) => body
  }

  /**
   * The record handed to `fetch` by both http_ajax of cjs/requests.js and
   * the old http_get of cjs/index.js: seven properties copied from
   * `params`, `mode` read from `params.cors`, and no `body`.
   */
  function Descriptor(params: map<string, Value>): (d: map<string, Value>)
    ensures d.Keys == {"method", "mode", "cache", "credentials", "headers", "redirect", "referrer"}
    ensures "body" !in d
    ensures d["mode"] == Lookup(params, "cors")
    ensures forall k :: k in {"method", "cache", "credentials", "headers", "redirect", "referrer"} ==> d[k] == Lookup(params, k)
  {
    map[
      "method" := Lookup(params, "method"),
      "mode" := Lookup(params, "cors"),
      "cache" := Lookup(params, "cache"),
      "credentials" := Lookup(params, "credentials"),
      "headers" := Lookup(params, "headers"),
      "redirect" := Lookup(params, "redirect"),
      "referrer" := Lookup(params, "referrer")]
  }

  /** Neither `body` nor `mode` of params reaches fetch. */
  lemma {:induction false} DescriptorIgnoresBodyAndMode(p: map<string, Value>, body: Value, mode: Value)
    ensures Descriptor(p["body" := body]["mode" := mode]) == Descriptor(p)
  {
  }
}
