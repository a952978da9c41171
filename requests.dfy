/**
 * http_ajax and its wrappers http_get, http_post, http_put and
 * http_delete of cjs/requests.js (the same code is in
 * cjs/requests-1730b253.js). The caller's options object is a class
 * whose properties http_get and http_ajax update in place.
 *
 * As written, http_ajax reads an identifier `method` that nothing
 * declares. Reading an unresolvable name throws ReferenceError, so the
 * read throws unless the host happens to have a global property of that
 * name; the model keeps that binding as Env.globalMethod and follows
 * the rest of the code as written for the case where it exists.
 */
module Requests {
  import opened Js
  import opened Host

  /** A caller's options object: its own enumerable properties. */
  class Options {
    var props: map<string, Value>

    constructor (props: map<string, Value>)
      ensures this.props == props
    {
      this.props := props;
    }
  }

  // ---------------------------------------------------------------------
  // The pieces of http_ajax

  /** `options.cache === false ? "no-cache" : typeof options.cache === "string" ? options.cache : "default"` */
  function ComputedCache(cache: Value): Value {
    if cache == Bool(false) then Str("no-cache") else if cache.Str? then cache else Str("default")
  }

  /** The defaults of the `params` record, before `...options`. */
  function Defaults(methodValue: Value, options: map<string, Value>): map<string, Value> {
    map[
      "method" := methodValue,
      "mode" := Str("cors"),
      "cache" := ComputedCache(Lookup(options, "cache")),
      "credentials" := Str("same-origin"),
      "redirect" := Str("follow"),
      "referrer" := Str("no-referrer"),
      "headers" := Object(map[])]
  }

  /** `{method, mode: "cors", cache, credentials, redirect, referrer, headers: {}, ...options}` */
  function Params(methodValue: Value, options: map<string, Value>): map<string, Value> {
    Defaults(methodValue, options) + options
  }

  /**
   * Normalising the body when the method is not GET: a falsy body becomes
   * "", a string body stays, anything else is replaced by its JSON text
   * (and JSON.stringify may throw).
   */
  function NormaliseBody(env: Env, options: map<string, Value>): Result<map<string, Value>> {
    var body := Lookup(options, "body");
    if !Truthy(body) then Ok(options["body" := Str("")])
    else if body.Str? then Ok(options)
    else
      var text :- env.stringify(body);
      Ok(options["body" := text])
  }

  /** `let output = data.data || data` */
  function Unwrap(data: Value): Result<Value> {
    var inner :- GetProp(data, "data");
    Ok(Or(inner, data))
  }

  /** `data` is `await res.json()` when res.json is a function, otherwise res itself; then unwrapped. */
  function ReadResponse(res: Response): Result<Value> {
    match res.json
    case None => Unwrap(res.self)
    case Some(parsed) =>
      var data :- parsed;
      Unwrap(data)
  }

  /** What a call of http_ajax settles to, and the caller's options afterwards. */
  datatype Outcome = Outcome(result: Result<Value>, options: map<string, Value>)

  /** http_ajax(url, options) */
  function Ajax(env: Env, url: string, options: map<string, Value>): Outcome {
    if !FetchIsFunction(env) then Outcome(Ok(Undefined), options)
    else
      match env.globalMethod
      case None => Outcome(Err(ReferenceError("method")), options)
      case Some(methodValue) =>
        var normalised := if methodValue != Str("GET") then NormaliseBody(env, options) else Ok(options);
        match normalised
        case Err(e) => Outcome(Err(e), options)
        case Ok(opts) => Outcome(Send(env.fetch.call, url, Descriptor(Params(methodValue, opts))), opts)
  }

  /** `await fetch(url, descriptor)`, then the response read and unwrapped. */
  function Send(fetch: FetchFn, url: string, descriptor: map<string, Value>): Result<Value> {
    var res :- fetch(url, descriptor);
    ReadResponse(res)
  }

  // ---------------------------------------------------------------------
  // The operations

  /** http_ajax(url, options): normalises options.body in place, then fetches and unwraps. */
  method HttpAjax(env: Env, url: string, options: Options) returns (r: Result<Value>)
    modifies options
    ensures r == Ajax(env, url, old(options.props)).result
    ensures options.props == Ajax(env, url, old(options.props)).options
  {
    if !env.fetch.Bound? {
      return Ok(Undefined);
    }
    if env.globalMethod.None? {
      return Err(ReferenceError("method"));
    }
    var methodValue := env.globalMethod.value;
    if methodValue != Str("GET") {
      var thrown := NormaliseBodyInPlace(env, options);
      if thrown.Some? {
        return Err(thrown.value);
      }
    }
    var params := Params(methodValue, options.props);
    var res := env.fetch.call(url, Descriptor(params));
    match res {
      case Err(e) => r := Err(e);
      case Ok(response) => r := ReadResponse(response);
    }
  }

  /** The body normalisation of http_ajax, in place: None when it completes, the thrown error otherwise. */
  method NormaliseBodyInPlace(env: Env, options: Options) returns (thrown: Option<JsError>)
    modifies options
    ensures NormaliseBody(env, old(options.props)).Ok? ==>
      thrown.None? && options.props == NormaliseBody(env, old(options.props)).value
    ensures NormaliseBody(env, old(options.props)).Err? ==>
      thrown == Some(NormaliseBody(env, old(options.props)).error) && options.props == old(options.props)
  {
    var body := Lookup(options.props, "body");
    if !Truthy(body) {
      options.props := options.props["body" := Str("")];
    } else if !body.Str? {
      var text := env.stringify(body);
      if text.Err? {
        return Some(text.error);
      }
      options.props := options.props["body" := text.value];
    }
    thrown := None;
  }

  /** http_get(url, options): sets options.method to "GET" on the caller's object, then delegates. */
  method HttpGet(env: Env, url: string, options: Options) returns (r: Result<Value>)
    modifies options
    ensures r == Ajax(env, url, old(options.props)["method" := Str("GET")]).result
    ensures options.props == Ajax(env, url, old(options.props)["method" := Str("GET")]).options
  {
    options.props := options.props["method" := Str("GET")];
    r := HttpAjax(env, url, options);
  }

  /** The fresh options record of http_post, http_put and http_delete (`data = {}` by default). */
  function VerbOptions(verb: string, data: Value): map<string, Value> {
    map["method" := Str(verb), "body" := Default(data, Object(map[]))]
  }

  /** http_post(url, data) */
  method HttpPost(env: Env, url: string, data: Value) returns (r: Result<Value>)
    ensures r == Ajax(env, url, VerbOptions("POST", data)).result
  {
    var options := new Options(VerbOptions("POST", data));
    r := HttpAjax(env, url, options);
  }

  /** http_put(url, data) */
  method HttpPut(env: Env, url: string, data: Value) returns (r: Result<Value>)
    ensures r == Ajax(env, url, VerbOptions("PUT", data)).result
  {
    var options := new Options(VerbOptions("PUT", data));
    r := HttpAjax(env, url, options);
  }

  /** http_delete(url, data) */
  method HttpDelete(env: Env, url: string, data: Value) returns (r: Result<Value>)
    ensures r == Ajax(env, url, VerbOptions("DELETE", data)).result
  {
    var options := new Options(VerbOptions("DELETE", data));
    r := HttpAjax(env, url, options);
  }

  // ---------------------------------------------------------------------
  // Properties

  /** Without a fetch function the call resolves to undefined and touches nothing. */
  lemma {:induction false} AjaxWithoutFetch(env: Env, url: string, options: map<string, Value>)
    requires !FetchIsFunction(env)
    ensures Ajax(env, url, options) == Outcome(Ok(Undefined), options)
  {
  }

  /**
   * With fetch present and no global `method`, the undeclared identifier
   * throws ReferenceError before fetch is called or the body is touched:
   * the outcome is the same for every fetch function.
   */
  lemma {:induction false} AjaxUndeclaredMethod(env: Env, url: string, options: map<string, Value>, other: FetchFn)
    requires FetchIsFunction(env) && env.globalMethod.None?
    ensures Ajax(env, url, options) == Outcome(Err(ReferenceError("method")), options)
    ensures Ajax(env.(fetch := Bound(other)), url, options) == Ajax(env, url, options)
  {
  }

  /**
   * Body normalisation: a falsy body (or none) becomes "", a non-empty
   * string is kept, anything else becomes its JSON text; no other
   * property changes.
   */
  lemma {:induction false} NormaliseBodySpec(env: Env, options: map<string, Value>)
    ensures var body := Lookup(options, "body");
      && (!Truthy(body) ==> NormaliseBody(env, options) == Ok(options["body" := Str("")]))
      && (Truthy(body) && body.Str? ==> NormaliseBody(env, options) == Ok(options))
      && (Truthy(body) && !body.Str? ==>
            NormaliseBody(env, options) ==
              match env.stringify(body) case Ok(t) => Ok(options["body" := t]) case Err(e) => Err(e))
    ensures NormaliseBody(env, options).Ok? ==>
      var o := NormaliseBody(env, options).value;
      o.Keys == options.Keys + {"body"} && forall k :: k in options && k != "body" ==> o[k] == options[k]
  {
  }

  /** Once the body is a string, normalising again changes nothing. */
  lemma {:induction false} NormaliseBodyIdempotent(env: Env, options: map<string, Value>)
    requires NormaliseBody(env, options).Ok? && Lookup(NormaliseBody(env, options).value, "body").Str?
    ensures NormaliseBody(env, NormaliseBody(env, options).value) == NormaliseBody(env, options)
  {
    var o := NormaliseBody(env, options).value;
    assert "body" in o;
    if o["body"] == Str("") {
      assert o["body" := Str("")] == o;
    }
  }

  /**
   * The params record: every caller property wins over the defaults,
   * including `cache`, so the computed cache value survives only when the
   * caller has no `cache` property, and then it is "default".
   */
  lemma {:induction false} ParamsSpec(methodValue: Value, options: map<string, Value>)
    ensures var p := Params(methodValue, options);
      && p.Keys == options.Keys + {"method", "mode", "cache", "credentials", "redirect", "referrer", "headers"}
      && (forall k :: k in options ==> p[k] == options[k])
      && p["cache"] == (if "cache" in options then options["cache"] else Str("default"))
      && ("method" !in options ==> p["method"] == methodValue)
      && ("mode" !in options ==> p["mode"] == Str("cors"))
      && ("headers" !in options ==> p["headers"] == Object(map[]))
  {
  }

  /**
   * The descriptor fetch receives from http_post, http_put and
   * http_delete, whatever the data: the verb, no mode, the "default"
   * cache, no body.
   */
  lemma {:induction false} VerbDescriptor(methodValue: Value, verb: string, data: Value, body: Value)
    ensures Descriptor(Params(methodValue, VerbOptions(verb, data)["body" := body])) ==
      map["method" := Str(verb), "mode" := Undefined, "cache" := Str("default"),
        "credentials" := Str("same-origin"), "headers" := Object(map[]),
        "redirect" := Str("follow"), "referrer" := Str("no-referrer")]
  {
    VerbParams(methodValue, verb, data, body);
  }

  lemma {:induction false} VerbParams(methodValue: Value, verb: string, data: Value, body: Value)
    ensures var p := Params(methodValue, VerbOptions(verb, data)["body" := body]);
      && Lookup(p, "method") == Str(verb) && Lookup(p, "cors") == Undefined && Lookup(p, "cache") == Str("default")
      && Lookup(p, "credentials") == Str("same-origin") && Lookup(p, "headers") == Object(map[])
      && Lookup(p, "redirect") == Str("follow") && Lookup(p, "referrer") == Str("no-referrer")
  {
    var o := VerbOptions(verb, data)["body" := body];
    assert o.Keys == {"method", "body"} && o["method"] == Str(verb);
    assert Lookup(o, "cache") == Undefined;
  }

  /**
   * The body never reaches fetch: two calls whose options differ only in
   * a string body settle the same way.
   */
  lemma {:induction false} AjaxIgnoresBody(env: Env, url: string, options: map<string, Value>, b1: string, b2: string)
    ensures Ajax(env, url, options["body" := Str(b1)]).result == Ajax(env, url, options["body" := Str(b2)]).result
  {
    if FetchIsFunction(env) && env.globalMethod.Some? {
      AjaxStringBody(env, url, options, b1);
      AjaxStringBody(env, url, options, b2);
    }
  }

  /** With a string body, what fetch receives is the descriptor of the options without it. */
  lemma {:induction false} AjaxStringBody(env: Env, url: string, options: map<string, Value>, b: string)
    requires FetchIsFunction(env) && env.globalMethod.Some?
    ensures Ajax(env, url, options["body" := Str(b)]).result ==
      Send(env.fetch.call, url, Descriptor(Params(env.globalMethod.value, options)))
  {
    var m := env.globalMethod.value;
    var o := options["body" := Str(b)];
    StringBodyKept(env, options, b);
    assert (if m != Str("GET") then NormaliseBody(env, o) else Ok(o)) == Ok(o);
    assert Ajax(env, url, o).result == Send(env.fetch.call, url, Descriptor(Params(m, o)));
    DescriptorParamsBody(m, options, Str(b));
  }

  /** The body of the options does not reach the descriptor. */
  lemma {:induction false} DescriptorParamsBody(m: Value, options: map<string, Value>, body: Value)
    ensures Descriptor(Params(m, options["body" := body])) == Descriptor(Params(m, options))
  {
    var p := Params(m, options);
    ParamsBody(m, options, body);
    DescriptorIgnoresBodyAndMode(p, body, Lookup(p, "mode"));
    assert p["body" := body]["mode" := Lookup(p, "mode")] == p["body" := body];
  }

  /** A string body comes out of normalisation as it went in. */
  lemma {:induction false} StringBodyKept(env: Env, options: map<string, Value>, b: string)
    ensures NormaliseBody(env, options["body" := Str(b)]) == Ok(options["body" := Str(b)])
  {
    var o := options["body" := Str(b)];
    if b == "" {
      assert o["body" := Str("")] == o;
    }
  }

  /** Setting the body of the options sets it in params and changes nothing else. */
  lemma {:induction false} ParamsBody(m: Value, options: map<string, Value>, body: Value)
    ensures Params(m, options["body" := body]) == Params(m, options)["body" := body]
  {
    assert Lookup(options["body" := body], "cache") == Lookup(options, "cache");
  }

  /**
   * The only property of the caller's options http_ajax may change is
   * `body`, and it changes nothing at all when the global `method` is
   * "GET" or the call stops before normalising.
   */
  lemma {:induction false} AjaxChangesOnlyBody(env: Env, url: string, options: map<string, Value>)
    ensures var after := Ajax(env, url, options).options;
      && options.Keys <= after.Keys <= options.Keys + {"body"}
      && (forall k :: k in options && k != "body" ==> after[k] == options[k])
    ensures env.globalMethod == Some(Str("GET")) ==> Ajax(env, url, options).options == options
  {
    NormaliseBodySpec(env, options);
  }

  /** After http_get the caller's options carry method "GET", whatever http_ajax does next. */
  lemma {:induction false} GetSetsMethod(env: Env, url: string, options: map<string, Value>)
    ensures Ajax(env, url, options["method" := Str("GET")]).options["method"] == Str("GET")
  {
    AjaxChangesOnlyBody(env, url, options["method" := Str("GET")]);
  }

  /**
   * The unwrap: undefined or null data throws TypeError; an object whose
   * `data` property is truthy gives that property; otherwise data itself.
   */
  lemma {:induction false} UnwrapSpec(data: Value)
    ensures Unwrap(data).Err? <==> data.Undefined? || data.Null?
    ensures Unwrap(data).Err? ==> Unwrap(data).error == TypeError
    ensures data.Object? && "data" in data.props && Truthy(data.props["data"]) ==> Unwrap(data) == Ok(data.props["data"])
    ensures data.Object? && !("data" in data.props && Truthy(data.props["data"])) ==> Unwrap(data) == Ok(data)
    ensures !data.Object? && !data.Undefined? && !data.Null? ==> Unwrap(data) == Ok(data)
  {
  }

  /**
   * The options http_get passes on carry method "GET", and that is the
   * method in the descriptor; whether the body is normalised still
   * depends on the global `method`.
   */
  lemma {:induction false} GetDescriptorMethod(methodValue: Value, options: map<string, Value>)
    ensures Descriptor(Params(methodValue, options["method" := Str("GET")]))["method"] == Str("GET")
  {
  }
}
