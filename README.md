# Querystring helpers and fetch wrappers, modelled in Dafny

This project models two small pieces of a browser utility library.

1. **The querystring codec of `cjs/index.js`.** It has four parts:
   - `querystring_from_object` encodes an object as `?k=v&...`;
   - `object_from_querystring` parses such a string back into an object;
   - `querystring_replace_key_value` sets one key by rewriting the query into JSON text, parsing it, assigning the key and serialising it again;
   - `str_trim_char` is the private regexp helper.
2. **The fetch wrappers.** These are:
   - the current `http_ajax` in `cjs/requests.js`, with its wrappers `http_get`, `http_post`, `http_put` and `http_delete`. The same code appears in `cjs/requests-1730b253.js`, and one module models both;
   - the older `http_get`, `http_post`, `http_put` and `http_ajax` of `cjs/index.js`.

The JavaScript the code relies on is spelled out in the model.

- **Objects.** An object is its own properties in insertion order (`JsObjects.Obj`).
- **Enumeration order.** `Object.keys`, `Object.entries` and `for-in` list array-index keys first, in ascending order, then the other keys in insertion order (`OwnOrder`).
- **Assignment.** `obj[k] = v` is modelled, including the inherited `__proto__` setter. `JSON.parse` instead creates `__proto__` as a data property.
- **URI functions.** `encodeURIComponent`, `decodeURIComponent` and `decodeURI` follow ECMA-262 section 19.2.6, "URI Handling Functions". That covers full UTF-8 encoding and decoding. A `decodeURI` escape of a reserved character (`;/?:@&=+$,#`) is kept as written (`Uri.DecodeReservedEscape`). The escape form is that of RFC 3986 section 2.1.
- **Strings.** `String.prototype.split`, `trim` and `replace` with a string pattern are modelled.
- **Completions.** A call ends normally or with a thrown exception, modelled as `Js.Result` with the JavaScript error kinds.

The host is a parameter (`Host.Env`). It consists of:
- the binding of `fetch`, which may be absent, not a function, or an abstract function from the URL and descriptor to a response or a rejection;
- an abstract `JSON.stringify`;
- an optional global named `method`;
- whether `window` is an object.

The operations whose source code changes state are methods, each proved equal to a specification function. These are:
- the two loops of `object_from_querystring`;
- the output loop of `querystring_replace_key_value`;
- the in-place updates of the caller's options in `http_ajax` and `http_get` (class `Requests.Options`);
- the reassignments of the two old functions.

The properties are then proved about those functions.

Some functions are plain definitions of one step of the code, and their contracts only spell out their cases. They have no row in the table below, and the lemmas that use them state the properties. These are `Querystring.EncodePairs` (see `QuerystringPieces`), `Host.CallFetch` and `Host.Json` (see `LegacyRequests.GetFetchUrl` and `GetResult`), and `LegacyRequests.QueryOfData` (see `GetFetchUrl` and `SendJsonSpec`).

Where the code and its documentation disagree, the model follows the code:
- The doc comment of `querystring_replace_key_value` (`cjs/index.js:49`) promises `"?start=10&species=apple"` for `("?start=10&fruit=apple", "fruit", "species")`. The code gives `"?start=10&fruit=species"` (`QueryReplace.DocumentedExample`).
- `decodeURIComponent` throws on a malformed escape in a value, so `object_from_querystring` can throw (`Querystring.MalformedValueThrows`). It does not silently skip such input.
- `querystring_replace_key_value` calls `decodeURI` before `JSON.parse`, so a malformed escape throws URIError first, as for `"?%&a"` (`QueryReplace.ReplaceMalformedEscape`). When `decodeURI` succeeds and the decoded query holds no backslash, `querystring_replace_key_value("")` and any query with a piece that lacks exactly one `=` throw SyntaxError from `JSON.parse`.
- The doc comment of `querystring_from_object` (`cjs/index.js:7`) says that an empty object gives `"?"`. The code (`cjs/index.js:13-15`) gives `""` (`Querystring.QuerystringFromObject`).
- The method is never upper-cased.
- A missing `fetch` makes the current `http_ajax` resolve to `undefined`. There is no dedicated error.
- The current `http_ajax` merges no default `Content-Type`. Only the old `http_ajax` does.
- The old `http_get` sends the query string twice.
- The unwrap keeps `data.data` only when it is truthy. A falsy `data.data` such as `0` or `""` gives back the whole parsed value.
- `http_ajax` of `cjs/requests.js` reads an identifier `method` that nothing declares. Reading an unresolvable name throws ReferenceError in any mode, so the read throws once `fetch` is a function, so the call rejects before `fetch` is called. The model keeps the possibility of a global named `method` (`Env.globalMethod`) so that the rest of the function is modelled as written.

## Model

| member | source | states |
|---|---|---|
| Querystring.QuerystringFromObject | cjs/index.js:9-17 | the result is "" exactly for an object with no keys; otherwise it starts with "?" and has no other "?" |
| Querystring.QuerystringPieces | cjs/index.js:10-15 | the text after "?" splits on "&" into exactly `encodeURIComponent(k) + "=" + encodeURIComponent(v)` for each own key, in enumeration order |
| Querystring.QuerystringInsertionOrder | cjs/index.js:10-12 | with no array-index keys, the encoded pairs come in insertion order |
| Querystring.EncodedPiecesFree | cjs/index.js:11 | no encoded pair is empty or contains a character that encodeURIComponent always escapes, such as "&" or "?" |
| Uri.EncodeURIComponent | cjs/index.js:11 | every output character is unreserved or "%"; text of unreserved characters encodes to itself |
| Uri.Escape | cjs/index.js:11 | an octet becomes "%" and two upper-case hex digits whose value is the octet |
| Uri.DecodeReservedEscape | cjs/index.js:56 | decodeURI keeps an escape of `;/?:@&=+$,#` as its three characters, so `%26` and `%3D` do not split the query; decodeURIComponent turns it into the character |
| Uri.Decode | cjs/index.js:38 | the decoder fails only with URIError |
| Uri.DecodePlain | cjs/index.js:38 | text without "%" decodes to itself under decodeURI and decodeURIComponent |
| Uri.DecodeMalformed | cjs/index.js:38 | a "%" not followed by two hex digits throws URIError |
| Uri.DecodeEscapedChar | cjs/index.js:38 | the escapes of one character's UTF-8 octets decode back to that character |
| Uri.Utf8RoundTrip | cjs/index.js:38 | the UTF-8 octets of a non-ASCII character decode back to the character |
| Uri.DecodeEncode | cjs/index.js:9-42 | decodeURIComponent(encodeURIComponent(s)) == s for every string: the value decoding at line 38 undoes the encoding at line 11 |
| Querystring.ObjectFromQuerystring | cjs/index.js:25-42 | the method, with its two loops, returns exactly ParseQuery(str) |
| Querystring.FillPairs | cjs/index.js:29-35 | the first loop builds the object of the kept pairs, each assigned in turn |
| Querystring.DecodeInPlace | cjs/index.js:37-39 | the second loop decodes every value in place, or throws the first decoding error |
| Querystring.ParsePairSpec | cjs/index.js:30-34 | a piece is skipped exactly when it is empty or starts with "="; otherwise the key is the text before the first "=" and the value is the text between the first and second "=", or "" |
| Querystring.OnlyFirstQuestionMark | cjs/index.js:28 | only the first "?" is removed: "??a=1" gives the key "?a" |
| Querystring.CollectLastWins | cjs/index.js:29-35 | each key holds the value of its last pair; "__proto__" never becomes a property; keys stay distinct |
| Querystring.DecodeValuesSpec | cjs/index.js:37-39 | decoding succeeds iff every value decodes; then each value is decodeURIComponent then trim, keys and order unchanged; failure is URIError |
| Querystring.KeysNotDecoded | cjs/index.js:31-38 | "?a%20b=x%20y" gives the key "a%20b" undecoded and the value "x y" decoded |
| Querystring.MalformedValueThrows | cjs/index.js:38 | a malformed escape in a value throws URIError |
| Querystring.ParseQueryEmpty | cjs/index.js:25-42 | the empty string parses to the empty object |
| Querystring.ParseSinglePair | cjs/index.js:28-39 | "?k=v" gives the single property k with v decoded and trimmed, and nothing for k == "__proto__" |
| Querystring.RoundTrip | cjs/index.js:9-42 | parsing the encoding of an object gives the object back (for distinct, unreserved, non-index keys other than "__proto__", and values without surrounding whitespace) |
| CharTrim.BracketClass | cjs/index.js:88-90 | the bracket `[c]` matches c alone, except that `[^]` matches every character |
| CharTrim.StrTrimCharAgrees | cjs/index.js:87-91 | for every character other than "^", str_trim_char removes the leading and trailing runs of c |
| CharTrim.StrTrimCaretEmpties | cjs/index.js:87-91 | as written, str_trim_char(s, "^") is "" for every s |
| CharTrim.StrTrimCaretCounterexample | cjs/index.js:90 | str_trim_char("a^", "^") is "" where trimming "^" gives "a" |
| CharTrim.TrimCharShape | cjs/index.js:87-91 | the result is s less a leading and a trailing run of c, and neither starts nor ends with c |
| CharTrim.TrimCharIdempotent | cjs/index.js:87-91 | trimming twice is trimming once |
| JsStrings.Split | cjs/index.js:28-31 | split gives at least one piece, and no piece holds the separator |
| JsStrings.JoinSplit | cjs/index.js:28-31 | joining the pieces of a split with the separator gives the string back |
| JsStrings.SplitJoin | cjs/index.js:11-28 | splitting a join of separator-free pieces gives the pieces back |
| JsStrings.RemoveFirst | cjs/index.js:28 | `replace("?", "")` with a string pattern removes the first occurrence only |
| JsStrings.StripShape | cjs/index.js:87-91 | stripping (here and in the trim at line 38) removes a leading and a trailing run of the class and keeps the middle |
| JsStrings.StripIdempotent | cjs/index.js:87-91 | stripping twice is stripping once |
| JsObjects.Assign | cjs/index.js:59 | `o[k] = v` (also line 34): k gets v, other keys keep theirs, a new key goes last, an existing one keeps its place; an absent "__proto__" changes nothing |
| JsObjects.DefineGet | cjs/index.js:55-57 | a property created by JSON.parse has the new value, and every other key keeps its own |
| JsObjects.DefineKeys | cjs/index.js:55-57 | a created property takes an existing key's place or goes last |
| JsObjects.OwnOrder | cjs/index.js:62 | the enumeration of Object.entries (and of Object.keys at line 10 and for-in at line 37) lists every own property exactly once |
| JsObjects.SortByIndex | cjs/index.js:62 | array-index properties are listed by ascending index, as a permutation |
| JsObjects.OwnOrderNoIndex | cjs/index.js:62 | without array-index keys the enumeration order is the insertion order |
| QueryReplace.QuerystringReplaceKeyValue | cjs/index.js:51-67 | the method, with its output loop, returns exactly ReplaceKeyValue |
| QueryReplace.WriteEntries | cjs/index.js:61-65 | the loop writes "?" then `k=v&` for every entry in order |
| QueryReplace.ParsePiece | cjs/index.js:56 | after the rewrite of "&" and "=", a piece is a JSON member iff it holds exactly one "="; otherwise SyntaxError |
| QueryReplace.ParseRewrittenSpec | cjs/index.js:55-57 | JSON.parse of the rewritten text succeeds iff there is no control character and every "&" piece has exactly one "="; it fails with SyntaxError; keys are distinct |
| QueryReplace.MembersSpec | cjs/index.js:55-57 | the members parse iff each piece has one "="; otherwise SyntaxError; the keys are distinct |
| QueryReplace.DedupSpec | cjs/index.js:55-57 | the key list of the parsed object holds each piece key once, loses none, and orders them by first occurrence |
| QueryReplace.MembersKeys | cjs/index.js:55-57 | the parsed object's keys are the pieces' keys with repeats dropped after their first occurrence |
| QueryReplace.MembersLastWins | cjs/index.js:55-57 | a key's value in the parsed object is the value of the last piece naming it |
| QueryReplace.ReplaceMalformedEscape | cjs/index.js:53-57 | decodeURI runs before JSON.parse: a query with a malformed escape, such as "?%&a", throws URIError |
| QueryReplace.ReplaceNeedsEquals | cjs/index.js:53-57 | a query piece without "=", such as "?a", throws SyntaxError |
| QueryReplace.ReplaceShape | cjs/index.js:61-66 | a result starts with "?" and does not end with "&" |
| QueryReplace.Rebuilt | cjs/index.js:61-65 | the rebuilt text starts with "?" |
| QueryReplace.TrimAmpersands | cjs/index.js:66 | trimming "&" from "?..." keeps the "?" and leaves no trailing "&" |
| QueryReplace.CleanedQuery | cjs/index.js:53-54 | a body with no "&" or "?" at either end survives the trims and loses only the leading "?" |
| QueryReplace.MembersOfPairs | cjs/index.js:55-57 | the pairs of a well-formed object parse back to that object |
| QueryReplace.ReadWellFormed | cjs/index.js:53-57 | a well-formed query decodes to its body unchanged |
| QueryReplace.ReplaceWellFormed | cjs/index.js:51-67 | on a well-formed query the result is the query of the object with the key assigned: pre-existing keys keep their order and values, a new key goes last, and the value is raw |
| QueryReplace.ReplaceSecondOfTwo | cjs/index.js:51-67 | replacing the second of two keys gives "?k1=v1&k2=v" |
| QueryReplace.DocumentedExample | cjs/index.js:46-67 | ("?start=10&fruit=apple", "fruit", "species") gives "?start=10&fruit=species", not the documented "?start=10&species=apple" |
| Host.Descriptor | cjs/requests.js:141-149 | the descriptor has exactly method, mode, cache, credentials, headers, redirect and referrer, no body, and mode is `params.cors` (also cjs/requests-1730b253.js:81-89 and cjs/index.js:167-175) |
| Host.DescriptorIgnoresBodyAndMode | cjs/requests.js:141-149 | neither `body` nor `mode` of params reaches fetch |
| Requests.HttpAjax | cjs/requests.js:110-163 | the result and the caller's options afterwards are those of Ajax (also cjs/requests-1730b253.js:50-103) |
| Requests.HttpGet | cjs/requests.js:61-64 | sets method "GET" on the caller's options, then behaves as http_ajax (also cjs/requests-1730b253.js:16-19) |
| Requests.HttpPost | cjs/requests.js:72-74 | delegates with a fresh {method: "POST", body: data}, with data defaulting to {} (also cjs/requests-1730b253.js:27-29) |
| Requests.HttpPut | cjs/requests.js:82-84 | delegates with a fresh {method: "PUT", body: data} (also cjs/requests-1730b253.js:37-39) |
| Requests.HttpDelete | cjs/requests.js:92-94 | delegates with a fresh {method: "DELETE", body: data} (also cjs/requests-1730b253.js:47-49) |
| Requests.AjaxWithoutFetch | cjs/requests.js:111-114 | without a fetch function the call resolves to undefined and the options are untouched (also cjs/requests-1730b253.js:51-54) |
| Requests.AjaxUndeclaredMethod | cjs/requests.js:118-124 | with fetch and no global `method`, the unresolvable read of `method` makes the call reject with ReferenceError before fetch or the body is touched, whatever fetch is (also cjs/requests-1730b253.js:1,58,64) |
| Requests.NormaliseBodyInPlace | cjs/requests.js:124-130 | the in-place update of options.body leaves the options NormaliseBody gives, or throws its error and changes nothing (also cjs/requests-1730b253.js:64-70) |
| Requests.NormaliseBodySpec | cjs/requests.js:124-130 | a falsy body becomes "", a string body is kept, any other body becomes its JSON text, and no other property changes (also cjs/requests-1730b253.js:64-70) |
| Requests.NormaliseBodyIdempotent | cjs/requests.js:124-130 | normalising a normalised string body changes nothing |
| Requests.ParamsSpec | cjs/requests.js:131-140 | the caller's properties win over the defaults, so `cache` is the caller's own when present and otherwise "default"; the default headers is {} (also cjs/requests-1730b253.js:71-80) |
| Requests.VerbDescriptor | cjs/requests.js:72-94 | post, put and delete send the verb, an undefined mode, the "default" cache and no body, whatever the data |
| Requests.AjaxIgnoresBody | cjs/requests.js:124-149 | two calls that differ only in a string body settle the same way |
| Requests.AjaxStringBody | cjs/requests.js:124-149 | with a string body, fetch receives the descriptor of the options without the body |
| Requests.DescriptorParamsBody | cjs/requests.js:131-149 | the body of the options does not reach the descriptor |
| Requests.AjaxChangesOnlyBody | cjs/requests.js:124-130 | http_ajax changes no property of the caller's options except `body`, and none at all when `method` is "GET" |
| Requests.GetSetsMethod | cjs/requests.js:61-64 | after http_get the caller's options carry method "GET" |
| Requests.UnwrapSpec | cjs/requests.js:150-156 | undefined or null data throws TypeError; a truthy `data.data` is returned; otherwise the data itself (also cjs/requests-1730b253.js:90-96) |
| Requests.GetDescriptorMethod | cjs/requests.js:61-64 | under http_get the descriptor (line 142)'s method is "GET" |
| LegacyRequests.HttpGet | cjs/index.js:153-178 | the method, reassigning options and url, settles exactly as Get |
| LegacyRequests.GetFetchUrl | cjs/index.js:164-167 | fetch gets url unchanged for falsy data, url + qs + qs for an object, and null throws TypeError |
| LegacyRequests.GetQueryTwice | cjs/index.js:164-167 | a non-empty object puts a second "?" into the url |
| LegacyRequests.GetResult | cjs/index.js:167-177 | the result is `response.data` of the parsed body with no fallback |
| LegacyRequests.GetDescriptor | cjs/index.js:154-175 | mode is `options.cors`; the caller's properties win; method is "GET" and cache is "no-cache" by default |
| LegacyRequests.SendJsonSpec | cjs/index.js:186-228 | post and put send JSON.stringify(data) as the body with mode "cors" and settle to the parsed JSON without unwrapping; a throw of JSON.stringify comes after the fetch lookup and before the call |
| LegacyRequests.PostDefaultData | cjs/index.js:186-211 | omitting data sends the JSON text of {} |
| LegacyRequests.HttpAjax | cjs/index.js:239-266 | the method, reassigning data, headers and options, settles exactly as Ajax |
| LegacyRequests.AjaxOptionsSpec | cjs/index.js:246-256 | fetch receives the whole record; the caller's options win, including a body; method defaults to "GET" only for undefined |
| LegacyRequests.AjaxHeadersSpec | cjs/index.js:241 | the caller's headers are kept and win over "Content-Type: application/json" |
| LegacyRequests.AjaxIgnoresData | cjs/index.js:239-240 | the data argument is never sent |
| LegacyRequests.AjaxWithoutFetch | cjs/index.js:245-265 | without fetch, a browser throws the "not supported" Error and any other host gets undefined |

## Findings

| source | as written | input that shows it | evidently intended | confidence | as-written member | corrected member |
|---|---|---|---|---|---|---|
| cjs/index.js:87-91 | only "]" and "\" are escaped inside the bracket, so c = "^" builds `[^]`, which matches every character | `str_trim_char("a^", "^")` gives "" | remove the leading and trailing runs of "^", giving "a" | not executed | CharTrim.StrTrimCaretCounterexample | CharTrim.TrimCharIdempotent |

The rest of the model uses the corrected `CharTrim.TrimChar`. This changes nothing for the library as written: every call site passes "&" or "?", and for those `CharTrim.StrTrimCharAgrees` proves the two functions equal. `CharTrim.TrimCharShape` states the intended property.

## Left out

- `load_script` and `is_retina`: DOM creation and one `matchMedia` query, with nothing to compute.
- The export flattening onto `window.__` and the module re-exports: module plumbing.
- Promise sequencing: each way a call can settle is a `Result`. The model does not tell a synchronous throw from a rejection. The functions of `cjs/requests.js` are `async`, so every error they raise rejects. The old `http_get`, `http_post`, `http_put` and `http_ajax` of `cjs/index.js` are not `async`. Any error they raise before `fetch` returns is thrown synchronously: `Object.keys(null)`, a missing `fetch`, a throwing `JSON.stringify`, and the "not supported" Error. Only errors inside the promise that `fetch` returns reject.
- `console.log` in `http_ajax`: output only.
- `fetch`, the response and `JSON.stringify`: abstract parameters of the host.
- `String(value)` and the number coercion in `encodeURIComponent(params[k])`: objects hold string values, standing for the strings `String` gives.
- Lone surrogates, for which `encodeURIComponent` throws URIError: a Dafny `char` is a Unicode scalar value.
- `str_trim_char` with a string of more than one character as `c`: the library calls it with single characters only.
- Options or headers that are not objects: they are modelled as records of own enumerable properties.
- `QueryReplace.QuerystringReplaceKeyValue`: requires the decoded query to hold no backslash (`Readable`), because the JSON escapes a backslash would start are not modelled.
- `QueryReplace.ReplaceWellFormed`: stated for queries whose keys and values hold none of `& = % ? \` or control characters, and no array-index keys. It does not cover queries that JSON.parse accepts outside that shape.
- `Querystring.RoundTrip`: stated under the conditions in its row. Other objects do not round-trip, for example keys that need escaping or values with surrounding whitespace.
- `LegacyRequests.QueryOfData`: truthy primitives (a non-empty string, a non-zero number, `true`) as the `data` of the old `http_get` are left out. `Object.keys` of such a value is their index keys, not query parameters.
- The `typeof querystring_from_object === "function"` test of the old `http_get` is always true, so it is not modelled.
