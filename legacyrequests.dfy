/**
 * The older request helpers of cjs/index.js: http_get, http_post,
 * http_put and http_ajax. Unlike the helpers of cjs/requests.js they
 * never touch the caller's objects: each builds fresh records from its
 * arguments and hands them to fetch.
 */
module LegacyRequests {
  import opened Js
  import opened JsObjects
  import opened Host
  import opened Querystring

  /**
   * The `data` argument of http_get as querystring_from_object sees it:
   * undefined (the default, read as {}), null (Object.keys throws), a
   * falsy primitive (no own keys), or an object of query parameters.
   */
  datatype QueryData = Absent | NullData | FalsyPrimitive | Params(params: Obj)

  /** `data` is truthy exactly when it is an object. */
  predicate DataTruthy(data: QueryData) {
    data.Params?
  }

  /** querystring_from_object(data) */
  function QueryOfData(data: QueryData): (r: Result<string>)
    ensures data.NullData? <==> r.Err?
    ensures r.Err? ==> r.error == TypeError
    ensures data.Absent? || data.FalsyPrimitive? ==> r == Ok("")
    ensures data.Params? ==> r == Ok(QuerystringFromObject(data.params))
  {
    match data
    case Absent => Ok(QuerystringFromObject([]))
    case NullData => Err(TypeError)
    case FalsyPrimitive => Ok(QuerystringFromObject([]))
    case Params(o) => Ok(QuerystringFromObject(o))
  }

  /** `.then((response) => response.json()).then((response) => response.data)` */
  function ReadData(res: Response): Result<Value> {
    var parsed :- Json(res);
    GetProp(parsed, "data")
  }

  // ---------------------------------------------------------------------
  // http_get

  /** `{method: "GET", mode: "cors", cache: "no-cache", ..., headers: {}, ...options}` */
  function GetOptions(options: map<string, Value>): map<string, Value> {
    map[
      "method" := Str("GET"),
      "mode" := Str("cors"),
      "cache" := Str("no-cache"),
      "credentials" := Str("same-origin"),
      "redirect" := Str("follow"),
      "referrer" := Str("no-referrer"),
      "headers" := Object(map[])] + options
  }

  /** The url after the `if (data && ...)` statement. */
  function GetBaseUrl(url: string, data: QueryData): string {
    if DataTruthy(data) then url + QuerystringFromObject(data.params) else url
  }

  /** The arguments of the fetch call: `url + querystring_from_object(data)` and the descriptor. */
  function GetFetchArgs(url: string, data: QueryData, options: map<string, Value>): Result<(string, map<string, Value>)> {
    var qs :- QueryOfData(data);
    Ok((GetBaseUrl(url, data) + qs, Descriptor(GetOptions(options))))
  }

  /** http_get(url, data, options) */
  function Get(env: Env, url: string, data: QueryData, options: map<string, Value>): Result<Value> {
    var res :- CallFetch(env, GetFetchArgs(url, data, options));
    ReadData(res)
  }

  /** http_get(url, data, options), reassigning `options` and `url` as the code does. */
  method HttpGet(env: Env, url: string, data: QueryData, options: map<string, Value>) returns (r: Result<Value>)
    ensures r == Get(env, url, data, options)
  {
    var opts := GetOptions(options);
    var u := url;
    if DataTruthy(data) {
      u := u + QuerystringFromObject(data.params);
    }
    if env.fetch.Unbound? {
      return Err(ReferenceError("fetch"));
    }
    var qs := QueryOfData(data);
    if qs.Err? {
      return Err(qs.error);
    }
    var descriptor := Descriptor(opts);
    if env.fetch.NotAFunction? {
      return Err(TypeError);
    }
    var res := env.fetch.call(u + qs.value, descriptor);
    match res {
      case Err(e) => r := Err(e);
      case Ok(response) => r := ReadData(response);
    }
  }

  /**
   * The url fetch receives: unchanged for falsy data, the query string
   * appended twice for an object, and for null the second
   * querystring_from_object call throws.
   */
  lemma {:induction false} GetFetchUrl(url: string, data: QueryData, options: map<string, Value>)
    ensures data.Absent? || data.FalsyPrimitive? ==> GetFetchArgs(url, data, options) == Ok((url, Descriptor(GetOptions(options))))
    ensures data.NullData? ==> GetFetchArgs(url, data, options) == Err(TypeError)
    ensures data.Params? ==>
      var qs := QuerystringFromObject(data.params);
      GetFetchArgs(url, data, options) == Ok((url + qs + qs, Descriptor(GetOptions(options))))
  {
    if data.Absent? || data.FalsyPrimitive? {
      assert url + "" == url;
    }
  }

  /**
   * A non-empty object of parameters puts two "?" into the url (the
   * query string is appended twice), where one was meant.
   */
  lemma {:induction false} GetQueryTwice(url: string, o: Obj, options: map<string, Value>)
    requires o != []
    ensures GetFetchArgs(url, Params(o), options).Ok?
    ensures var u := GetFetchArgs(url, Params(o), options).value.0;
      u[|url|] == '?' && u[|url| + |QuerystringFromObject(o)|] == '?'
  {
    GetFetchUrl(url, Params(o), options);
    var qs := QuerystringFromObject(o);
    var u := url + qs + qs;
    assert u[|url|] == qs[0];
    assert u[|url| + |qs|] == qs[0];
  }

  /**
   * What http_get settles to once fetch has resolved: `response.data` of
   * the parsed body with no fallback, so parsed JSON without a `data`
   * property gives undefined.
   */
  lemma {:induction false} GetResult(env: Env, url: string, data: QueryData, options: map<string, Value>)
    requires env.fetch.Bound? && !data.NullData?
    ensures var args := GetFetchArgs(url, data, options).value;
      Get(env, url, data, options) ==
        match env.fetch.call(args.0, args.1)
        case Err(e) => Err(e)
        case Ok(res) =>
          match res.json
          case None => Err(TypeError)
          case Some(Err(e)) => Err(e)
          case Some(Ok(parsed)) =>
            if parsed.Undefined? || parsed.Null? then Err(TypeError)
            else if parsed.Object? && "data" in parsed.props then Ok(parsed.props["data"])
            else Ok(Undefined)
  {
  }

  /**
   * The descriptor of http_get: `mode` is read from `options.cors`, so
   * the "cors" default never reaches fetch, and a caller's own
   * properties win over the defaults.
   */
  lemma {:induction false} GetDescriptor(options: map<string, Value>)
    ensures var d := Descriptor(GetOptions(options));
      && d["mode"] == Lookup(options, "cors")
      && d["method"] == (if "method" in options then options["method"] else Str("GET"))
      && ("cache" !in options ==> d["cache"] == Str("no-cache"))
      && (forall k :: k in {"method", "cache", "credentials", "headers", "redirect", "referrer"} && k in options ==> d[k] == options[k])
  {
  }

  // ---------------------------------------------------------------------
  // http_post and http_put

  /** The fixed record of http_post and http_put, with the JSON text of data as its body. */
  function JsonDescriptor(verb: string, body: Value): map<string, Value> {
    map[
      "method" := Str(verb),
      "mode" := Str("cors"),
      "cache" := Str("no-cache"),
      "credentials" := Str("same-origin"),
      "headers" := Object(map["Content-Type" := Str("application/json; charset=utf-8")]),
      "redirect" := Str("follow"),
      "referrer" := Str("no-referrer"),
      "body" := body]
  }

  /**
   * `fetch(url, {..., body: JSON.stringify(data)}).then((response) => response.json())`:
   * JSON.stringify runs after fetch is looked up and before it is called.
   */
  function SendJson(env: Env, verb: string, url: string, data: Value): Result<Value> {
    var args := match env.stringify(Default(data, Object(map[])))
      case Err(e) => Err(e)
      case Ok(body) => Ok((url, JsonDescriptor(verb, body)));
    var res :- CallFetch(env, args);
    Json(res)
  }

  /** http_post(url, data) */
  function Post(env: Env, url: string, data: Value): Result<Value> {
    SendJson(env, "POST", url, data)
  }

  /** http_put(url, data) */
  function Put(env: Env, url: string, data: Value): Result<Value> {
    SendJson(env, "PUT", url, data)
  }

  /**
   * http_post and http_put send their body, in JSON, with mode "cors",
   * and settle to the parsed JSON itself (nothing is unwrapped); a throw
   * of JSON.stringify rejects the call unless fetch is unbound.
   */
  lemma {:induction false} SendJsonSpec(env: Env, verb: string, url: string, data: Value)
    ensures env.fetch.Unbound? ==> SendJson(env, verb, url, data) == Err(ReferenceError("fetch"))
    ensures !env.fetch.Unbound? && env.stringify(Default(data, Object(map[]))).Err? ==>
      SendJson(env, verb, url, data) == Err(env.stringify(Default(data, Object(map[]))).error)
    ensures env.fetch.NotAFunction? && env.stringify(Default(data, Object(map[]))).Ok? ==> SendJson(env, verb, url, data) == Err(TypeError)
    ensures env.fetch.Bound? && env.stringify(Default(data, Object(map[]))).Ok? ==>
      var d := JsonDescriptor(verb, env.stringify(Default(data, Object(map[]))).value);
      && d["body"] == env.stringify(Default(data, Object(map[]))).value
      && d["mode"] == Str("cors")
      && SendJson(env, verb, url, data) ==
        match env.fetch.call(url, d)
        case Err(e) => Err(e)
        case Ok(res) => if res.json.None? then Err(TypeError) else res.json.value
  {
  }

  /** Omitting data sends the JSON text of {}. */
  lemma {:induction false} PostDefaultData(env: Env, url: string)
    ensures Post(env, url, Undefined) == Post(env, url, Object(map[]))
    ensures Put(env, url, Undefined) == Put(env, url, Object(map[]))
  {
  }

  // ---------------------------------------------------------------------
  // http_ajax

  const UnsupportedMessage := "Sorry. Your browser does not support this feature."

  /** `{"Content-Type": "application/json", ...headers}` */
  function AjaxHeaders(headers: map<string, Value>): map<string, Value> {
    map["Content-Type" := Str("application/json")] + headers
  }

  /** `{method, mode: "cors", cache: "no-cache", ..., headers}`, before `...options` */
  function AjaxDefaults(methodValue: Value, headers: map<string, Value>): map<string, Value> {
    map[
      "method" := methodValue,
      "mode" := Str("cors"),
      "cache" := Str("no-cache"),
      "credentials" := Str("same-origin"),
      "redirect" := Str("follow"),
      "referrer" := Str("no-referrer"),
      "headers" := Object(headers)]
  }

  /** The record http_ajax hands to fetch. */
  function AjaxOptions(methodValue: Value, headers: map<string, Value>, options: map<string, Value>): map<string, Value> {
    AjaxDefaults(Default(methodValue, Str("GET")), AjaxHeaders(headers)) + options
  }

  /**
   * http_ajax(url, method, data, headers, options): with fetch, the whole
   * options record is handed over and `response.data` returned; without
   * it, a browser throws and any other host gets undefined.
   */
  function Ajax(env: Env, url: string, methodValue: Value, data: Value, headers: map<string, Value>, options: map<string, Value>): Result<Value> {
    if env.fetch.Bound? then
      var res :- env.fetch.call(url, AjaxOptions(methodValue, headers, options));
      ReadData(res)
    else if env.windowIsObject then Err(Error(UnsupportedMessage))
    else Ok(Undefined)
  }

  /** http_ajax as written, reassigning `data`, `headers` and `options` in turn. */
  method HttpAjax(env: Env, url: string, methodValue: Value, data: Value, headers: map<string, Value>, options: map<string, Value>)
    returns (r: Result<Value>)
    ensures r == Ajax(env, url, methodValue, data, headers, options)
  {
    var m := Default(methodValue, Str("GET"));
    var d := Or(data, Undefined);
    var h := AjaxHeaders(headers);
    if env.fetch.Bound? {
      var opts := AjaxDefaults(m, h) + options;
      var res := env.fetch.call(url, opts);
      match res {
        case Err(e) => r := Err(e);
        case Ok(response) => r := ReadData(response);
      }
      return;
    }
    if env.windowIsObject {
      return Err(Error(UnsupportedMessage));
    }
    r := Ok(Undefined);
  }

  /**
   * The record fetch receives: the caller's options win over everything,
   * the caller's headers win over the JSON content type, and a body in
   * the options does reach fetch.
   */
  lemma {:induction false} AjaxOptionsSpec(methodValue: Value, headers: map<string, Value>, options: map<string, Value>)
    ensures var o := AjaxOptions(methodValue, headers, options);
      && o.Keys == options.Keys + {"method", "mode", "cache", "credentials", "redirect", "referrer", "headers"}
      && (forall k :: k in options ==> o[k] == options[k])
      && ("method" !in options ==> o["method"] == (if methodValue.Undefined? then Str("GET") else methodValue))
      && ("mode" !in options ==> o["mode"] == Str("cors"))
      && ("headers" !in options ==> o["headers"] == Object(AjaxHeaders(headers)))
  {
  }

  /** The caller's headers are kept and win over the JSON content type. */
  lemma {:induction false} AjaxHeadersSpec(headers: map<string, Value>)
    ensures var h := AjaxHeaders(headers);
      && h.Keys == headers.Keys + {"Content-Type"}
      && (forall k :: k in headers ==> h[k] == headers[k])
      && h["Content-Type"] == (if "Content-Type" in headers then headers["Content-Type"] else Str("application/json"))
  {
  }

  /** The data argument is never sent: http_ajax settles the same way whatever it is. */
  lemma {:induction false} AjaxIgnoresData(env: Env, url: string, methodValue: Value, d1: Value, d2: Value, headers: map<string, Value>, options: map<string, Value>)
    ensures Ajax(env, url, methodValue, d1, headers, options) == Ajax(env, url, methodValue, d2, headers, options)
  {
  }

  /** Without fetch: a thrown Error in a browser, undefined elsewhere. */
  lemma {:induction false} AjaxWithoutFetch(env: Env, url: string, methodValue: Value, data: Value, headers: map<string, Value>, options: map<string, Value>)
    requires !env.fetch.Bound?
    ensures env.windowIsObject ==> Ajax(env, url, methodValue, data, headers, options) == Err(Error(UnsupportedMessage))
    ensures !env.windowIsObject ==> Ajax(env, url, methodValue, data, headers, options) == Ok(Undefined)
  {
  }
}
