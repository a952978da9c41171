/**
 * querystring_replace_key_value(queryString, key, value) of cjs/index.js.
 *
 * The query is trimmed of "&" and then of "?" (with str_trim_char),
 * passed through decodeURI, and turned into an object by JSON.parse of
 * the text `{"` + t' + `"}`, where t' is the decoded text with every `"`
 * written `\"`, every "&" written `","` and every "=" written `":"`.
 * The key is then assigned, and the entries are written out again as
 * "?" + `k=v&`... with the trailing "&"s trimmed.
 *
 * When the decoded text holds no backslash, every quotation mark of it
 * is escaped, so the strings of the JSON text are exactly the pieces
 * between "&" and "=", quotation marks included. JSON.parse then accepts
 * the text exactly when every "&"-piece holds one "=" and no character
 * below U+0020 occurs (JSON forbids raw control characters in strings);
 * it creates the members in order, a repeated key keeping its first
 * place and taking its last value. A decoded text with a backslash can
 * end a string early and reach the rest of the JSON grammar; such
 * queries are outside this model (see Readable).
 */
module QueryReplace {
  import opened Js
  import opened JsStrings
  import opened JsObjects
  import opened Uri
  import opened CharTrim

  // ---------------------------------------------------------------------
  // JSON.parse of the rewritten text

  /** One "&"-piece `k=v` is the member `"k":"v"`; any other number of "=" is a SyntaxError. */
  function ParsePiece(piece: string): (r: Result<Entry>)
    ensures r.Ok? <==> CountChar(piece, '=') == 1
    ensures r.Err? ==> r.error == SyntaxError
    ensures r.Ok? ==> r.value.0 + "=" + r.value.1 == piece
    ensures r.Ok? ==> r.value.0 == PieceKey(piece)
  {
    var parts := Split(piece, '=');
    SplitCount(piece, '=');
    if |parts| == 2 then
      JoinSplit(piece, '=');
      Ok((parts[0], parts[1]))
    else Err(SyntaxError)
  }

  /** The members created in order, each by CreateDataProperty. */
  function Members(pieces: seq<string>): Result<Obj>
    decreases |pieces|
  {
    if pieces == [] then Ok([])
    else
      var o :- Members(pieces[..|pieces| - 1]);
      var e :- ParsePiece(pieces[|pieces| - 1]);
      Ok(Define(o, e.0, e.1))
  }

  predicate NoControl(t: string) {
    forall i :: 0 <= i < |t| ==> t[i] >= ' '
  }

  /** JSON.parse(`{"` + t' + `"}`) for a decoded text t without a backslash. */
  function JsonParseRewritten(t: string): Result<Obj>
    requires '\\' !in t
  {
    if !NoControl(t) then Err(SyntaxError) else Members(Split(t, '&'))
  }

  // ---------------------------------------------------------------------
  // The operation

  /** The query after `str_trim_char(queryString, "&")` and `str_trim_char(queryString, "?")`. */
  function Cleaned(q: string): string {
    TrimChar(TrimChar(q, '&'), '?')
  }

  /** The queries this model covers: those whose decoded text holds no backslash. */
  predicate Readable(q: string) {
    match DecodeURI(Cleaned(q))
    case Ok(t) => '\\' !in t
    case Err(_) => true
  }

  /** The output the loop writes after the initial "?": `k=v&` for every entry in turn. */
  function Serialize(es: seq<Entry>): string
    decreases |es|
  {
    if es == [] then ""
    else Serialize(es[..|es| - 1]) + es[|es| - 1].0 + "=" + es[|es| - 1].1 + "&"
  }

  /** What querystring_replace_key_value returns or throws. */
  function ReplaceKeyValue(q: string, key: string, value: string): Result<string>
    requires Readable(q)
  {
    var t :- DecodeURI(Cleaned(q));
    var obj :- JsonParseRewritten(t);
    Ok(TrimChar(Rebuilt(obj, key, value), '&'))
  }

  /** The output before the final trim: "?" and the entries of obj after the assignment, in enumeration order. */
  function Rebuilt(obj: Obj, key: string, value: string): (s: string)
    ensures s != [] && s[0] == '?'
  {
    "?" + Serialize(OwnOrder(Assign(obj, key, value)))
  }

  /** querystring_replace_key_value(queryString, key, value) */
  method QuerystringReplaceKeyValue(queryString: string, key: string, value: string) returns (r: Result<string>)
    requires Readable(queryString)
    ensures r == ReplaceKeyValue(queryString, key, value)
  {
    var q := TrimChar(queryString, '&');
    q := TrimChar(q, '?');
    var decoded := DecodeURI(q);
    if decoded.Err? {
      return Err(decoded.error);
    }
    var parsed := JsonParseRewritten(decoded.value);
    if parsed.Err? {
      return Err(parsed.error);
    }
    var obj := Assign(parsed.value, key, value);
    var output := WriteEntries(OwnOrder(obj));
    r := Ok(TrimChar(output, '&'));
    assert ReplaceKeyValue(queryString, key, value) == r;
  }

  /** The loop over Object.entries(obj) that writes the output. */
  method WriteEntries(entries: seq<Entry>) returns (output: string)
    ensures output == "?" + Serialize(entries)
  {
    output := "?";
    var i := 0;
    while i < |entries|
      invariant 0 <= i <= |entries|
      invariant output == "?" + Serialize(entries[..i])
    {
      output := output + entries[i].0 + "=";
      output := output + entries[i].1 + "&";
      assert entries[..i + 1] == entries[..i] + [entries[i]];
      SerializeSnoc(entries[..i], entries[i]);
      i := i + 1;
    }
    assert entries[..i] == entries;
  }

  lemma {:induction false} SerializeSnoc(es: seq<Entry>, e: Entry)
    ensures Serialize(es + [e]) == Serialize(es) + e.0 + "=" + e.1 + "&"
  {
    assert (es + [e])[..|es|] == es;
  }

  // ---------------------------------------------------------------------
  // Properties

  /** A successful result starts with "?" and does not end with "&". */
  lemma {:induction false} ReplaceShape(q: string, key: string, value: string)
    requires Readable(q)
    ensures ReplaceKeyValue(q, key, value).Ok? ==>
      var out := ReplaceKeyValue(q, key, value).value;
      out != [] && out[0] == '?' && out[|out| - 1] != '&'
  {
    var t := DecodeURI(Cleaned(q));
    if t.Ok? && JsonParseRewritten(t.value).Ok? {
      var s := Rebuilt(JsonParseRewritten(t.value).value, key, value);
      assert ReplaceKeyValue(q, key, value) == Ok(TrimChar(s, '&'));
      TrimAmpersands(s);
    }
  }

  /** Trimming "&" from a text that starts with "?" keeps the "?" and leaves no "&" at the end. */
  lemma {:induction false} TrimAmpersands(s: string)
    requires s != [] && s[0] == '?'
    ensures var t := TrimChar(s, '&'); t != [] && t[0] == '?' && t[|t| - 1] != '&'
  {
    assert StripStart(s, Single('&')) == s;
    var j := StripEndAt(s, Single('&'));
    assert !InClass(Single('&'), s[0]);
    assert j != 0;
  }

  /** JSON.parse accepts the rewritten text exactly when no control character occurs and every piece holds one "=". */
  lemma {:induction false} ParseRewrittenSpec(t: string)
    requires '\\' !in t
    ensures var pieces := Split(t, '&');
      JsonParseRewritten(t).Ok? <==> NoControl(t) && forall i :: 0 <= i < |pieces| ==> CountChar(pieces[i], '=') == 1
    ensures JsonParseRewritten(t).Err? ==> JsonParseRewritten(t).error == SyntaxError
    ensures JsonParseRewritten(t).Ok? ==> DistinctKeys(JsonParseRewritten(t).value)
  {
    MembersSpec(Split(t, '&'));
    if NoControl(t) {
      assert JsonParseRewritten(t) == Members(Split(t, '&'));
    } else {
      assert JsonParseRewritten(t) == Err(SyntaxError);
    }
  }

  lemma {:induction false} MembersSpec(pieces: seq<string>)
    ensures Members(pieces).Ok? <==> forall i :: 0 <= i < |pieces| ==> CountChar(pieces[i], '=') == 1
    ensures Members(pieces).Err? ==> Members(pieces).error == SyntaxError
    ensures Members(pieces).Ok? ==> DistinctKeys(Members(pieces).value)
    decreases |pieces|
  {
    if pieces != [] {
      var init := pieces[..|pieces| - 1];
      MembersSpec(init);
      assert forall i :: 0 <= i < |init| ==> init[i] == pieces[i];
      if Members(init).Ok? && ParsePiece(pieces[|pieces| - 1]).Ok? {
        var e := ParsePiece(pieces[|pieces| - 1]).value;
        DefineDistinct(Members(init).value, e.0, e.1);
      }
    }
  }

  /** The key a piece names: its text before the first "=". */
  function PieceKey(piece: string): string {
    Split(piece, '=')[0]
  }

  function PieceKeys(pieces: seq<string>): seq<string> {
    seq(|pieces|, i requires 0 <= i < |pieces| => PieceKey(pieces[i]))
  }

  /** ks with each repeated element dropped after its first occurrence. */
  function Dedup(ks: seq<string>): seq<string>
    decreases |ks|
  {
    if ks == [] then []
    else
      var d := Dedup(ks[..|ks| - 1]);
      if ks[|ks| - 1] in d then d else d + [ks[|ks| - 1]]
  }

  /**
   * Dedup keeps each element once, loses none, and orders them by first
   * occurrence: wherever the later one occurs, the earlier one has
   * already occurred.
   */
  lemma {:induction false} DedupSpec(ks: seq<string>)
    ensures forall a, b :: 0 <= a < b < |Dedup(ks)| ==> Dedup(ks)[a] != Dedup(ks)[b]
    ensures forall k :: k in Dedup(ks) <==> k in ks
    ensures forall a, b, j :: 0 <= a < b < |Dedup(ks)| && 0 <= j < |ks| && ks[j] == Dedup(ks)[b] ==> Dedup(ks)[a] in ks[..j]
    decreases |ks|
  {
    if ks != [] {
      var init := ks[..|ks| - 1];
      var x := ks[|ks| - 1];
      DedupSpec(init);
      assert ks == init + [x];
      var d := Dedup(init);
      forall a, b, j | 0 <= a < b < |Dedup(ks)| && 0 <= j < |ks| && ks[j] == Dedup(ks)[b]
        ensures Dedup(ks)[a] in ks[..j]
      {
        if j < |init| {
          assert ks[..j] == init[..j];
          assert ks[j] == init[j];
        } else {
          assert ks[..j] == init;
          assert Dedup(ks)[a] == d[a];
        }
      }
    }
  }

  /** The members' keys are the pieces' keys in first-occurrence order. */
  lemma {:induction false} MembersKeys(pieces: seq<string>)
    requires Members(pieces).Ok?
    ensures Keys(Members(pieces).value) == Dedup(PieceKeys(pieces))
    decreases |pieces|
  {
    if pieces != [] {
      var init := pieces[..|pieces| - 1];
      var last := pieces[|pieces| - 1];
      assert PieceKeys(pieces)[..|pieces| - 1] == PieceKeys(init);
      MembersKeys(init);
      var e := ParsePiece(last).value;
      DefineKeys(Members(init).value, e.0, e.1);
    }
  }

  /** A key's value is the one of the last piece naming it. */
  lemma {:induction false} MembersLastWins(pieces: seq<string>, i: nat)
    requires Members(pieces).Ok?
    requires i < |pieces|
    requires forall j :: i < j < |pieces| ==> PieceKey(pieces[j]) != PieceKey(pieces[i])
    ensures ParsePiece(pieces[i]).Ok?
    ensures Get(Members(pieces).value, PieceKey(pieces[i])) == Some(ParsePiece(pieces[i]).value.1)
    decreases |pieces|
  {
    var init := pieces[..|pieces| - 1];
    var last := pieces[|pieces| - 1];
    var e := ParsePiece(last).value;
    DefineGet(Members(init).value, e.0, e.1);
    if i < |pieces| - 1 {
      assert init[i] == pieces[i];
      MembersLastWins(init, i);
    }
  }

  /**
   * decodeURI runs before JSON.parse: a malformed escape throws URIError
   * whatever the pieces are, e.g. for "?%&a".
   */
  lemma {:induction false} ReplaceMalformedEscape(p: string, t: string, key: string, value: string)
    requires '%' !in p
    requires |t| < 2 || !IsHexDigit(t[0]) || !IsHexDigit(t[1])
    requires var body := p + "%" + t;
      body[0] != '&' && body[0] != '?' && body[|body| - 1] != '&' && body[|body| - 1] != '?'
    ensures Readable("?" + p + "%" + t)
    ensures ReplaceKeyValue("?" + p + "%" + t, key, value) == Err(URIError)
  {
    var body := p + "%" + t;
    assert "?" + p + "%" + t == "?" + body;
    CleanedQuery(body);
    DecodeMalformed(p, t, true);
  }

  /** A query without "=" is rejected: "?" + k with nothing to split makes JSON.parse throw. */
  lemma {:induction false} ReplaceNeedsEquals(k: string, key: string, value: string)
    requires SafeText(k)
    ensures Readable("?" + k)
    ensures ReplaceKeyValue("?" + k, key, value) == Err(SyntaxError)
  {
    var q := "?" + k;
    CleanedQuery(k);
    assert Cleaned(q) == k;
    SafeNoPercent(k);
    DecodePlain(k, true);
    SplitFree(k, '&');
    SplitCount(k, '=');
    assert CountChar(k, '=') == 0 by {
      CountAbsent(k, '=');
    }
    ParseRewrittenSpec(k);
    assert Split(k, '&')[0] == k;
  }

  lemma {:induction false} CountAbsent(s: string, c: char)
    requires c !in s
    ensures CountChar(s, c) == 0
    decreases |s|
  {
    if s != [] {
      CountAbsent(s[1..], c);
    }
  }

  // ---------------------------------------------------------------------
  // Well-formed queries

  /** The characters a key or value of a well-formed query avoids: the separators, "%", "?", "\" and controls. */
  predicate SafeChar(c: char) {
    c != '&' && c != '=' && c != '%' && c != '?' && c != '\\' && c >= ' '
  }

  predicate SafeText(s: string) {
    forall i :: 0 <= i < |s| ==> SafeChar(s[i])
  }

  predicate SafeEntries(o: Obj) {
    forall i :: 0 <= i < |o| ==> SafeText(o[i].0) && SafeText(o[i].1)
  }

  /** A character of a well-formed query body: a safe one, "=" or "&". */
  predicate BodyChar(c: char) {
    SafeChar(c) || c == '=' || c == '&'
  }

  function PairTexts(o: Obj): (r: seq<string>)
    ensures |r| == |o| && forall i :: 0 <= i < |o| ==> r[i] == o[i].0 + "=" + o[i].1
  {
    seq(|o|, i requires 0 <= i < |o| => o[i].0 + "=" + o[i].1)
  }

  /** The query `?k1=v1&k2=v2...` of an object. */
  function QueryOf(o: Obj): string {
    "?" + Join(PairTexts(o), "&")
  }

  lemma {:induction false} SafeNoPercent(s: string)
    requires forall i :: 0 <= i < |s| ==> BodyChar(s[i])
    ensures '%' !in s && '\\' !in s && NoControl(s)
  {
    forall i | 0 <= i < |s| ensures s[i] != '%' && s[i] != '\\' {
      assert BodyChar(s[i]);
    }
  }

  lemma {:induction false} JoinBodyChars(parts: seq<string>)
    requires forall i, n :: 0 <= i < |parts| && 0 <= n < |parts[i]| ==> BodyChar(parts[i][n])
    ensures forall n :: 0 <= n < |Join(parts, "&")| ==> BodyChar(Join(parts, "&")[n])
    decreases |parts|
  {
    if |parts| > 1 {
      JoinBodyChars(parts[1..]);
      var j := Join(parts, "&");
      var rest := Join(parts[1..], "&");
      assert j == parts[0] + "&" + rest;
      forall n | 0 <= n < |j| ensures BodyChar(j[n]) {
        if n < |parts[0]| {
          assert j[n] == parts[0][n];
        } else if n == |parts[0]| {
          assert j[n] == '&';
        } else {
          assert j[n] == rest[n - |parts[0]| - 1];
          assert BodyChar(rest[n - |parts[0]| - 1]);
        }
      }
    } else if |parts| == 1 {
      assert Join(parts, "&") == parts[0];
    }
  }

  /** Every piece is non-empty, and made of body characters without "&". */
  lemma {:induction false} PairTextsFacts(o: Obj)
    requires SafeEntries(o)
    ensures var ps := PairTexts(o);
      && (forall i :: 0 <= i < |ps| ==> ps[i] != "" && '&' !in ps[i])
      && (forall i, n :: 0 <= i < |ps| && 0 <= n < |ps[i]| ==> BodyChar(ps[i][n]))
      && (forall i :: 0 <= i < |ps| ==> ps[i][0] != '&' && ps[i][0] != '?')
      && (forall i :: 0 <= i < |ps| ==> ps[i][|ps[i]| - 1] != '&' && ps[i][|ps[i]| - 1] != '?')
  {
    var ps := PairTexts(o);
    forall i | 0 <= i < |ps|
      ensures ps[i] != "" && '&' !in ps[i]
      ensures forall n :: 0 <= n < |ps[i]| ==> BodyChar(ps[i][n])
      ensures ps[i][0] != '&' && ps[i][0] != '?'
      ensures ps[i][|ps[i]| - 1] != '&' && ps[i][|ps[i]| - 1] != '?'
    {
      var k, v := o[i].0, o[i].1;
      assert ps[i] == k + "=" + v;
      assert SafeText(k) && SafeText(v);
      forall n | 0 <= n < |ps[i]| ensures BodyChar(ps[i][n]) && ps[i][n] != '&' {
        if n < |k| {
          assert ps[i][n] == k[n];
        } else if n > |k| {
          assert ps[i][n] == v[n - |k| - 1];
        }
      }
    }
  }

  /** Cleaning "?" + body leaves body when body neither begins nor ends with "&" or "?". */
  lemma {:induction false} CleanedQuery(body: string)
    requires body == [] || (body[0] != '&' && body[0] != '?' && body[|body| - 1] != '&' && body[|body| - 1] != '?')
    ensures Cleaned("?" + body) == body
  {
    var q := "?" + body;
    StripIdentity(q, Single('&'));
    assert q[1..] == body;
    assert StripStart(q, Single('?')) == StripStart(body, Single('?'));
    assert StripStart(body, Single('?')) == body;
    if body != [] {
      assert StripEnd(body, Single('?')) == body;
    }
  }

  /** JSON.parse gives back the pairs of a well-formed body. */
  lemma {:induction false} MembersOfPairs(o: Obj)
    requires DistinctKeys(o) && SafeEntries(o)
    ensures Members(PairTexts(o)) == Ok(o)
    decreases |o|
  {
    if o != [] {
      var init := o[..|o| - 1];
      var last := o[|o| - 1];
      assert o == init + [last];
      PairTextsSnoc(init, last);
      LastEntry(o);
      MembersOfPairs(init);
      ParsePairText(last.0, last.1);
      DefineAbsent(init, last.0, last.1);
    }
  }

  lemma {:induction false} PairTextsSnoc(init: Obj, e: Entry)
    ensures PairTexts(init + [e]) == PairTexts(init) + [e.0 + "=" + e.1]
  {
    var a := PairTexts(init + [e]);
    var b := PairTexts(init) + [e.0 + "=" + e.1];
    forall i | 0 <= i < |a| ensures a[i] == b[i] {
      if i < |init| {
        assert (init + [e])[i] == init[i];
      }
    }
  }

  /** Dropping the last entry keeps a well-formed object well-formed, and its key was not among the others. */
  lemma {:induction false} LastEntry(o: Obj)
    requires o != [] && DistinctKeys(o) && SafeEntries(o)
    ensures var init := o[..|o| - 1];
      DistinctKeys(init) && SafeEntries(init) && o[|o| - 1].0 !in Keys(init)
      && SafeText(o[|o| - 1].0) && SafeText(o[|o| - 1].1)
  {
    var init := o[..|o| - 1];
    assert forall i :: 0 <= i < |init| ==> init[i] == o[i];
    assert forall i :: 0 <= i < |init| ==> Keys(init)[i] == o[i].0;
  }

  lemma {:induction false} ParsePairText(k: string, v: string)
    requires SafeText(k) && SafeText(v)
    ensures ParsePiece(k + "=" + v) == Ok((k, v))
  {
    assert '=' !in k && '=' !in v by {
      assert forall i :: 0 <= i < |k| ==> k[i] != '=';
      assert forall i :: 0 <= i < |v| ==> v[i] != '=';
    }
    SplitJoin([k, v], '=');
    assert Join([k, v], "=") == k + "=" + v;
  }

  /** The loop's output is the pieces joined by "&", with one more "&" after them. */
  lemma {:induction false} SerializeJoin(o: Obj)
    requires o != []
    ensures Serialize(o) == Join(PairTexts(o), "&") + "&"
    decreases |o|
  {
    var init := o[..|o| - 1];
    var last := o[|o| - 1];
    var t := last.0 + "=" + last.1;
    assert o == init + [last];
    PairTextsSnoc(init, last);
    if init == [] {
      assert PairTexts(o) == [t];
    } else {
      SerializeJoin(init);
      JoinSnoc(PairTexts(init), t, "&");
    }
  }

  /** Every entry Define leaves is one it was given or the new one. */
  lemma {:induction false} DefineEntries(o: Obj, k: string, v: string)
    ensures forall i :: 0 <= i < |Define(o, k, v)| ==> Define(o, k, v)[i] == (k, v) || Define(o, k, v)[i] in o
    decreases |o|
  {
    if o != [] && o[0].0 != k {
      DefineEntries(o[1..], k, v);
      var r := Define(o, k, v);
      forall i | 0 <= i < |r| ensures r[i] == (k, v) || r[i] in o {
        if i > 0 {
          assert r[i] == Define(o[1..], k, v)[i - 1];
        }
      }
    } else if o != [] {
      var r := Define(o, k, v);
      forall i | 0 <= i < |r| ensures r[i] == (k, v) || r[i] in o {
        if i > 0 {
          assert r[i] == o[i];
        }
      }
    }
  }

  /** Assigning a safe, non-index key and value keeps a well-formed object well-formed. */
  lemma {:induction false} AssignWellFormed(o: Obj, key: string, value: string)
    requires o != [] && DistinctKeys(o) && NoIndexKeys(o) && SafeEntries(o)
    requires SafeText(key) && SafeText(value) && !IsArrayIndex(key)
    ensures var r := Assign(o, key, value);
      r != [] && DistinctKeys(r) && NoIndexKeys(r) && SafeEntries(r)
  {
    var r := Assign(o, key, value);
    DefineEntries(o, key, value);
    assert |Keys(r)| >= |Keys(o)|;
    forall i | 0 <= i < |r| ensures !IsArrayIndex(r[i].0) && SafeText(r[i].0) && SafeText(r[i].1) {
      if r[i] != (key, value) {
        assert r[i] in o;
        var j :| 0 <= j < |o| && o[j] == r[i];
      }
    }
  }

  /**
   * On a well-formed query "?k1=v1&..." (distinct keys that are not array
   * indices, keys and values free of "&", "=", "%", "?", "\" and control
   * characters) the result is the query of the object with the key
   * assigned: an existing key keeps its place, a new one goes last, and
   * "__proto__" is ignored when it is not already present.
   */
  lemma {:induction false} ReplaceWellFormed(o: Obj, key: string, value: string)
    requires o != [] && DistinctKeys(o) && NoIndexKeys(o) && SafeEntries(o)
    requires SafeText(key) && SafeText(value) && !IsArrayIndex(key)
    ensures Readable(QueryOf(o))
    ensures ReplaceKeyValue(QueryOf(o), key, value) == Ok(QueryOf(Assign(o, key, value)))
  {
    ReadWellFormed(o);
    var r := Assign(o, key, value);
    assert Rebuilt(o, key, value) == "?" + Serialize(OwnOrder(r));
    AssignWellFormed(o, key, value);
    OwnOrderNoIndex(r);
    WriteWellFormed(r);
  }

  /** A well-formed query is cleaned, decoded and parsed back to its object. */
  lemma {:induction false} ReadWellFormed(o: Obj)
    requires o != [] && DistinctKeys(o) && SafeEntries(o)
    ensures var body := Join(PairTexts(o), "&");
      && DecodeURI(Cleaned(QueryOf(o))) == Ok(body)
      && '\\' !in body
      && JsonParseRewritten(body) == Ok(o)
  {
    var ps := PairTexts(o);
    var body := Join(ps, "&");
    PairTextsFacts(o);
    JoinEnds(ps, "&");
    JoinBodyChars(ps);
    CleanedQuery(body);
    SafeNoPercent(body);
    DecodePlain(body, true);
    SplitJoin(ps, '&');
    MembersOfPairs(o);
  }

  /** Writing a well-formed object out and trimming the final "&" gives its query. */
  lemma {:induction false} WriteWellFormed(r: Obj)
    requires r != [] && SafeEntries(r)
    ensures TrimChar("?" + Serialize(r), '&') == QueryOf(r)
  {
    SerializeJoin(r);
    var rs := PairTexts(r);
    var rbody := Join(rs, "&");
    PairTextsFacts(r);
    JoinEnds(rs, "&");
    var t := "?" + rbody;
    var s := "?" + Serialize(r);
    assert s == t + "&";
    assert t[|t| - 1] == rbody[|rbody| - 1] != '&';
    assert StripStart(s, Single('&')) == s;
    assert s[..|s| - 1] == t;
    assert StripEnd(s, Single('&')) == StripEnd(t, Single('&'));
    assert StripEnd(t, Single('&')) == t;
  }

  /** Two pairs, the second one replaced: it keeps its place and takes the new value. */
  lemma {:induction false} ReplaceSecondOfTwo(k1: string, v1: string, k2: string, v2: string, v: string)
    requires SafeText(k1) && SafeText(v1) && SafeText(k2) && SafeText(v2) && SafeText(v)
    requires k1 != k2 && !IsArrayIndex(k1) && !IsArrayIndex(k2)
    ensures Readable("?" + k1 + "=" + v1 + "&" + k2 + "=" + v2)
    ensures ReplaceKeyValue("?" + k1 + "=" + v1 + "&" + k2 + "=" + v2, k2, v) == Ok("?" + k1 + "=" + v1 + "&" + k2 + "=" + v)
  {
    TwoPairQuery(k1, v1, k2, v2);
    TwoPairQuery(k1, v1, k2, v);
    AssignSecond(k1, v1, k2, v2, v);
    ReplaceWellFormed([(k1, v1), (k2, v2)], k2, v);
  }

  /** The query of a two-entry object. */
  lemma {:induction false} TwoPairQuery(k1: string, v1: string, k2: string, v2: string)
    ensures QueryOf([(k1, v1), (k2, v2)]) == "?" + k1 + "=" + v1 + "&" + k2 + "=" + v2
  {
    assert PairTexts([(k1, v1), (k2, v2)]) == [k1 + "=" + v1, k2 + "=" + v2];
    assert Join([k1 + "=" + v1, k2 + "=" + v2], "&") == k1 + "=" + v1 + "&" + (k2 + "=" + v2);
  }

  /** Assigning the second of two distinct keys replaces its value in place. */
  lemma {:induction false} AssignSecond(k1: string, v1: string, k2: string, v2: string, v: string)
    requires k1 != k2
    ensures Assign([(k1, v1), (k2, v2)], k2, v) == [(k1, v1), (k2, v)]
  {
    var o := [(k1, v1), (k2, v2)];
    assert Keys(o) == [k1, k2];
    assert o[1..] == [(k2, v2)] && o[1..][1..] == [];
    assert Define(o[1..], k2, v) == [(k2, v)];
    assert Define(o, k2, v) == [(k1, v1)] + [(k2, v)];
  }

  /**
   * The example of the documentation comment: "fruit" is replaced in
   * place. The comment promises "?start=10&species=apple"; the code
   * gives "?start=10&fruit=species".
   */
  lemma {:induction false} DocumentedExample()
    ensures Readable("?start=10&fruit=apple")
    ensures ReplaceKeyValue("?start=10&fruit=apple", "fruit", "species") == Ok("?start=10&fruit=species")
  {
    ExampleTexts();
    ExampleQueries();
    ReplaceSecondOfTwo("start", "10", "fruit", "apple", "species");
  }

  lemma {:induction false} ExampleTexts()
    ensures SafeText("start") && SafeText("10") && SafeText("fruit") && SafeText("apple") && SafeText("species")
    ensures !IsArrayIndex("start") && !IsArrayIndex("fruit")
  {
    assert "start"[0] == 's' && "fruit"[0] == 'f';
  }

  lemma {:induction false} ExampleQueries()
    ensures "?" + "start" + "=" + "10" + "&" + "fruit" + "=" + "apple" == "?start=10&fruit=apple"
    ensures "?" + "start" + "=" + "10" + "&" + "fruit" + "=" + "species" == "?start=10&fruit=species"
  {
  }
}
