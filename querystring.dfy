/**
 * The querystring helpers of cjs/index.js: querystring_from_object,
 * object_from_querystring and querystring_replace_key_value. Objects are
 * JsObjects.Obj (own string properties in insertion order); parameter
 * values are given as the strings String(value) yields.
 */
module Querystring {
  import opened Js
  import opened JsStrings
  import opened JsObjects
  import opened Uri
  import opened CharTrim

  // ---------------------------------------------------------------------
  // querystring_from_object

  /** `encodeURIComponent(k) + "=" + encodeURIComponent(params[k])` */
  function EncodePair(e: Entry): string {
    EncodeURIComponent(e.0) + "=" + EncodeURIComponent(e.1)
  }

  function EncodePairs(es: seq<Entry>): (r: seq<string>)
    ensures |r| == |es| && forall i :: 0 <= i < |es| ==> r[i] == EncodePair(es[i])
  {
    seq(|es|, i requires 0 <= i < |es| => EncodePair(es[i]))
  }

  /**
   * querystring_from_object(params): the encoded pairs in Object.keys
   * order joined by "&", with a "?" in front unless there are none.
   */
  function QuerystringFromObject(params: Obj): (r: string)
    ensures r == "" <==> params == []
    ensures params != [] ==> r[0] == '?' && '?' !in r[1..]
  {
    var pairs := EncodePairs(OwnOrder(params));
    assert |OwnOrder(params)| == |params| by {
      assert |multiset(OwnOrder(params))| == |multiset(params)|;
    }
    var qs := Join(pairs, "&");
    if pairs != [] then
      JoinNonEmpty(pairs, "&");
      EncodedPiecesFree(OwnOrder(params), '?');
      JoinFree(pairs, "&", '?');
      "?" + qs
    else ""
  }

  /**
   * The pieces between the "&"s after the leading "?" are exactly the
   * encoded pairs, one per own key in enumeration order.
   */
  lemma {:induction false} QuerystringPieces(params: Obj)
    requires params != []
    ensures var r := QuerystringFromObject(params);
      r != "" && Split(r[1..], '&') == EncodePairs(OwnOrder(params))
  {
    var pairs := EncodePairs(OwnOrder(params));
    assert |OwnOrder(params)| == |params| by {
      assert |multiset(OwnOrder(params))| == |multiset(params)|;
    }
    EncodedPiecesFree(OwnOrder(params), '&');
    SplitJoin(pairs, '&');
    assert QuerystringFromObject(params)[1..] == Join(pairs, "&");
  }

  /** Without array-index keys the pairs come in insertion order. */
  lemma {:induction false} QuerystringInsertionOrder(params: Obj)
    requires params != [] && NoIndexKeys(params)
    ensures Split(QuerystringFromObject(params)[1..], '&') == EncodePairs(params)
  {
    QuerystringPieces(params);
    OwnOrderNoIndex(params);
  }

  lemma {:induction false} JoinNonEmpty(parts: seq<string>, sep: string)
    requires parts != [] && parts[0] != ""
    ensures Join(parts, sep) != ""
  {
    assert Join(parts, sep)[..|parts[0]|] == parts[0];
  }

  /** No encoded pair contains a character encodeURIComponent always escapes. */
  lemma {:induction false} EncodedPiecesFree(es: seq<Entry>, c: char)
    requires !IsUnescaped(c) && c != '%' && c != '='
    ensures var pairs := EncodePairs(es);
      forall i :: 0 <= i < |pairs| ==> c !in pairs[i] && pairs[i] != ""
  {
    var pairs := EncodePairs(es);
    forall i | 0 <= i < |pairs| ensures c !in pairs[i] && pairs[i] != "" {
      var a := EncodeURIComponent(es[i].0);
      var b := EncodeURIComponent(es[i].1);
      assert pairs[i] == a + "=" + b;
      assert c !in a && c !in b;
    }
  }

  // ---------------------------------------------------------------------
  // object_from_querystring

  /**
   * One `&`-separated piece: skipped when empty or when its key (the text
   * before the first "=") is empty; otherwise the key and the text
   * between the first and the second "=" ("" when there is no "=").
   */
  function ParsePair(pair: string): Option<Entry> {
    if pair == "" then None
    else
      var tuple := Split(pair, '=');
      var key := tuple[0];
      if key == "" then None
      else Some((key, if |tuple| > 1 then tuple[1] else ""))
  }

  /** `str.replace("?", "").split("&")` */
  function Pairs(str: string): seq<string> {
    Split(RemoveFirst(str, '?'), '&')
  }

  /** The object the first loop builds: each kept pair assigned in turn. */
  function Collect(pairs: seq<string>): Obj
    decreases |pairs|
  {
    if pairs == [] then []
    else
      var o := Collect(pairs[..|pairs| - 1]);
      match ParsePair(pairs[|pairs| - 1])
      case None => o
      case Some(e) => Assign(o, e.0, e.1)
  }

  /** `decodeURIComponent(raw || "").trim()` */
  function DecodeValue(raw: string): Result<string> {
    match DecodeURIComponent(raw)
    case Ok(t) => Ok(Trim(t))
    case Err(e) => Err(e)
  }

  /** The second loop: every value decoded in place, keys untouched. */
  function DecodeValues(o: Obj): Result<Obj>
    decreases |o|
  {
    if o == [] then Ok([])
    else
      match DecodeValues(o[..|o| - 1])
      case Err(e) => Err(e)
      case Ok(d) =>
        match DecodeValue(o[|o| - 1].1)
        case Err(e) => Err(e)
        case Ok(v) => Ok(d + [(o[|o| - 1].0, v)])
  }

  /** What object_from_querystring(str) returns or throws. */
  function ParseQuery(str: string): Result<Obj> {
    DecodeValues(Collect(Pairs(str)))
  }

  /** object_from_querystring(str): fill the object pair by pair, then decode every value in place. */
  method ObjectFromQuerystring(str: string) returns (r: Result<Obj>)
    ensures r == ParseQuery(str)
  {
    var pairs := Split(RemoveFirst(str, '?'), '&');
    var obj := FillPairs(pairs);
    r := DecodeInPlace(obj);
  }

  /** The first loop of object_from_querystring. */
  method FillPairs(pairs: seq<string>) returns (obj: Obj)
    ensures obj == Collect(pairs)
  {
    obj := [];
    var i := 0;
    while i < |pairs|
      invariant 0 <= i <= |pairs|
      invariant obj == Collect(pairs[..i])
    {
      var pair := pairs[i];
      if pair != "" {
        var tuple := Split(pair, '=');
        var key := tuple[0];
        if key != "" {
          var value := if |tuple| > 1 then tuple[1] else "";
          assert ParsePair(pair) == Some((key, value));
          obj := Assign(obj, key, value);
        } else {
          assert ParsePair(pair) == None;
        }
      } else {
        assert ParsePair(pair) == None;
      }
      assert pairs[..i + 1] == pairs[..i] + [pair];
      CollectSnoc(pairs[..i], pair);
      i := i + 1;
    }
    assert pairs[..i] == pairs;
  }

  /**
   * The second loop of object_from_querystring: each value decoded and
   * trimmed in place. The loop there runs in for-in order (OwnOrder);
   * this one runs in insertion order. The result is the same: each turn
   * rewrites only its own key's value, and every failure is a URIError.
   */
  method DecodeInPlace(filled: Obj) returns (r: Result<Obj>)
    ensures r == DecodeValues(filled)
  {
    var obj := filled;
    var j := 0;
    while j < |obj|
      invariant 0 <= j <= |obj| == |filled|
      invariant DecodeValues(filled[..j]) == Ok(obj[..j])
      invariant obj[j..] == filled[j..]
    {
      var decoded := DecodeURIComponent(obj[j].1);
      if decoded.Err? {
        DecodeFails(filled, obj, j);
        return Err(decoded.error);
      }
      DecodeStep(filled, obj, j);
      obj := obj[j := (obj[j].0, Trim(decoded.value))];
      j := j + 1;
    }
    assert filled[..j] == filled;
    assert obj[..j] == obj;
    r := Ok(obj);
  }

  /** One turn of the decode loop keeps its invariant. */
  lemma {:induction false} DecodeStep(filled: Obj, obj: Obj, j: nat)
    requires j < |obj| == |filled|
    requires DecodeValues(filled[..j]) == Ok(obj[..j]) && obj[j..] == filled[j..]
    requires DecodeURIComponent(obj[j].1).Ok?
    ensures var next := obj[j := (obj[j].0, Trim(DecodeURIComponent(obj[j].1).value))];
      DecodeValues(filled[..j + 1]) == Ok(next[..j + 1]) && next[j + 1..] == filled[j + 1..]
  {
    var next := obj[j := (obj[j].0, Trim(DecodeURIComponent(obj[j].1).value))];
    assert obj[j] == obj[j..][0] == filled[j];
    assert filled[..j + 1] == filled[..j] + [filled[j]];
    DecodeValuesSnoc(filled[..j], filled[j]);
    assert next[..j + 1] == obj[..j] + [next[j]];
  }

  /** A value that does not decode ends the loop with its error, which is the whole decode's. */
  lemma {:induction false} DecodeFails(filled: Obj, obj: Obj, j: nat)
    requires j < |obj| == |filled|
    requires DecodeValues(filled[..j]) == Ok(obj[..j]) && obj[j..] == filled[j..]
    requires DecodeURIComponent(obj[j].1).Err?
    ensures DecodeValues(filled) == Err(DecodeURIComponent(obj[j].1).error)
  {
    var e := filled[j];
    assert obj[j] == obj[j..][0] == e;
    var err := DecodeURIComponent(e.1).error;
    assert DecodeValue(e.1) == Err(err);
    assert filled[..j + 1] == filled[..j] + [e];
    DecodeValuesSnoc(filled[..j], e);
    assert DecodeValues(filled[..j + 1]) == Err(err);
    DecodeValuesPrefixErr(filled, j + 1);
  }

  /** One more pair: Collect assigns it on top of what came before, or skips it. */
  lemma {:induction false} CollectSnoc(pairs: seq<string>, p: string)
    ensures Collect(pairs + [p]) ==
      match ParsePair(p) case None => Collect(pairs) case Some(e) => Assign(Collect(pairs), e.0, e.1)
  {
    assert (pairs + [p])[..|pairs|] == pairs;
  }

  /** One more entry: its value is decoded after all the earlier ones. */
  lemma {:induction false} DecodeValuesSnoc(o: Obj, e: Entry)
    ensures DecodeValues(o + [e]) ==
      match DecodeValues(o)
      case Err(x) => Err(x)
      case Ok(d) => match DecodeValue(e.1) case Err(x) => Err(x) case Ok(v) => Ok(d + [(e.0, v)])
  {
    assert (o + [e])[..|o|] == o;
  }

  /** A failing prefix makes the whole decode fail. */
  lemma {:induction false} DecodeValuesPrefixErr(o: Obj, n: nat)
    requires n <= |o| && DecodeValues(o[..n]).Err?
    ensures DecodeValues(o) == DecodeValues(o[..n])
    decreases |o| - n
  {
    if n < |o| {
      assert o[..n + 1][..n] == o[..n];
      DecodeValuesPrefixErr(o, n + 1);
    } else {
      assert o[..n] == o;
    }
  }

  /** The empty string decodes to the empty object. */
  lemma {:induction false} ParseQueryEmpty()
    ensures ParseQuery("") == Ok([])
  {
    assert Pairs("") == [""];
  }

  /**
   * The pair rules: a pair is skipped exactly when it is empty or starts
   * with "="; otherwise its key runs up to the first "=" and its value
   * is what lies between the first and the second "=".
   */
  lemma {:induction false} ParsePairSpec(pair: string)
    ensures ParsePair(pair).None? <==> pair == "" || pair[0] == '='
    ensures ParsePair(pair).Some? ==>
      var i := IndexOf(pair, '=');
      && ParsePair(pair).value.0 == pair[..i]
      && ParsePair(pair).value.1 == (if i == |pair| then "" else var rest := pair[i + 1..]; rest[..IndexOf(rest, '=')])
  {
    if pair != "" {
      SplitHead(pair, '=');
      var i := IndexOf(pair, '=');
      if i < |pair| {
        SplitHead(pair[i + 1..], '=');
      }
    }
  }

  /** The raw value of the last kept pair with key k, read from the front. */
  function LastRaw(pairs: seq<string>, k: string): Option<string>
    decreases |pairs|
  {
    if pairs == [] then None
    else
      match LastRaw(pairs[1..], k)
      case Some(v) => Some(v)
      case None =>
        match ParsePair(pairs[0])
        case Some(e) => if e.0 == k then Some(e.1) else None
        case None => None
  }

  lemma {:induction false} LastRawSnoc(pairs: seq<string>, p: string, k: string)
    ensures LastRaw(pairs + [p], k) ==
      match ParsePair(p)
      case Some(e) => if e.0 == k then Some(e.1) else LastRaw(pairs, k)
      case None => LastRaw(pairs, k)
    decreases |pairs|
  {
    if pairs == [] {
      assert ([] + [p])[1..] == [];
    } else {
      assert (pairs + [p])[1..] == pairs[1..] + [p];
      LastRawSnoc(pairs[1..], p, k);
    }
  }

  /**
   * A later duplicate overwrites an earlier one: the first loop leaves
   * under every key other than "__proto__" the raw value of the last
   * pair with that key; "__proto__" pairs are dropped (the assignment
   * reaches the inherited setter). Keys stay distinct.
   */
  lemma {:induction false} CollectLastWins(pairs: seq<string>, k: string)
    ensures k != "__proto__" ==> Get(Collect(pairs), k) == LastRaw(pairs, k)
    ensures k == "__proto__" ==> Get(Collect(pairs), k) == None
    ensures DistinctKeys(Collect(pairs))
    decreases |pairs|
  {
    if pairs != [] {
      var init := pairs[..|pairs| - 1];
      var last := pairs[|pairs| - 1];
      assert pairs == init + [last];
      CollectLastWins(init, k);
      LastRawSnoc(init, last, k);
    }
  }

  /**
   * The decode loop fails exactly when some value is not a well-formed
   * encoding; otherwise it keeps keys and order and replaces each value
   * by its decoded, trimmed text.
   */
  lemma {:induction false} DecodeValuesSpec(o: Obj)
    ensures DecodeValues(o).Ok? <==> forall i :: 0 <= i < |o| ==> DecodeURIComponent(o[i].1).Ok?
    ensures DecodeValues(o).Err? ==> DecodeValues(o).error == URIError
    ensures DecodeValues(o).Ok? ==>
      var d := DecodeValues(o).value;
      && |d| == |o|
      && forall i :: 0 <= i < |o| ==> d[i] == (o[i].0, Trim(DecodeURIComponent(o[i].1).value))
    decreases |o|
  {
    if o != [] {
      var init := o[..|o| - 1];
      DecodeValuesSpec(init);
      assert forall i :: 0 <= i < |init| ==> init[i] == o[i];
    }
  }

  /** A query of one pair "?" + k + "=" + v, with no "&" or "=" inside k or v and k not empty. */
  lemma {:induction false} ParseSinglePair(k: string, v: string)
    requires k != "" && '&' !in k && '=' !in k && '&' !in v && '=' !in v
    ensures ParseQuery("?" + k + "=" + v) ==
      if k == "__proto__" then Ok([])
      else match DecodeValue(v) case Ok(t) => Ok([(k, t)]) case Err(e) => Err(e)
  {
    var body := k + "=" + v;
    var str := "?" + k + "=" + v;
    assert str == "?" + body;
    assert IndexOf(str, '?') == 0;
    assert RemoveFirst(str, '?') == body;
    SplitFree(body, '&');
    SplitJoin([k, v], '=');
    assert Join([k, v], "=") == body;
    assert ParsePair(body) == Some((k, v));
    assert Pairs(str) == [body];
    assert Collect([body]) == Assign([], k, v) by {
      assert [body][..0] == [];
    }
    assert ParseQuery(str) == DecodeValues(Assign([], k, v));
    if k != "__proto__" {
      var o := [(k, v)];
      assert Assign([], k, v) == o;
      assert o[..0] == [];
      match DecodeValue(v)
      case Ok(t) =>
        assert [] + [(k, t)] == [(k, t)];
        assert DecodeValues(o) == Ok([(k, t)]);
      case Err(e) =>
        assert DecodeValues(o) == Err(e);
    } else {
      assert Assign([], k, v) == [];
    }
  }

  /** Keys are taken literally: an escape in a key stays, one in a value is decoded. */
  lemma {:induction false} KeysNotDecoded()
    ensures ParseQuery("?a%20b=x%20y") == Ok([("a%20b", "x y")])
  {
    var k, v := "a%20b", "x%20y";
    assert "?" + k + "=" + v == "?a%20b=x%20y";
    ParseSinglePair(k, v);
    DecodeSample();
  }

  lemma {:induction false} DecodeSample()
    ensures DecodeValue("x%20y") == Ok("x y")
  {
    var tail := EscapeAll(Utf8(' ')) + "y";
    assert EscapeAll(Utf8(' ')) == "%20";
    assert "x%20y"[1..] == tail;
    DecodeEscapedChar(' ', "y", false);
    DecodePlain("y", false);
    assert [' '] + "y" == " y";
    assert Decode(tail, false) == Ok(" y");
    assert "x" + " y" == "x y";
    assert Decode("x%20y", false) == Prepend("x", Decode(tail, false));
    TrimSample();
  }

  lemma {:induction false} TrimSample()
    ensures Trim("x y") == "x y"
  {
    var s := "x y";
    assert s[0] == 'x' && s[|s| - 1] == 'y';
    StripIdentity(s, Whitespace);
  }

  /** A malformed escape in a surviving value throws URIError. */
  lemma {:induction false} MalformedValueThrows()
    ensures ParseQuery("?a=%") == Err(URIError)
  {
    var k, v := "a", "%";
    assert "?" + k + "=" + v == "?a=%";
    ParseSinglePair(k, v);
    DecodeMalformed("", "", false);
    assert "" + "%" + "" == "%";
  }

  /** Only the first "?" goes: a second one becomes part of the first key. */
  lemma {:induction false} OnlyFirstQuestionMark()
    ensures ParseQuery("??a=1") == Ok([("?a", "1")])
  {
    var k, v := "?a", "1";
    assert "?" + k + "=" + v == "??a=1";
    ParseSinglePair(k, v);
    DecodeOne();
  }

  lemma {:induction false} DecodeOne()
    ensures DecodeValue("1") == Ok("1")
  {
    DecodePlain("1", false);
    StripIdentity("1", Whitespace);
  }

  // ---------------------------------------------------------------------
  // The round trip

  /** A key the decoder gives back as it is: non-empty, left unchanged by encodeURIComponent, not "__proto__". */
  predicate PlainKey(k: string) {
    k != "" && k != "__proto__" && forall i :: 0 <= i < |k| ==> IsUnescaped(k[i])
  }

  /** A value the decoder gives back as it is: no whitespace at either end. */
  predicate PlainValue(v: string) {
    v == [] || (!IsWhitespace(v[0]) && !IsWhitespace(v[|v| - 1]))
  }

  function EncodeValues(m: Obj): (r: Obj)
    ensures |r| == |m| && forall i :: 0 <= i < |m| ==> r[i] == (m[i].0, EncodeURIComponent(m[i].1))
  {
    seq(|m|, i requires 0 <= i < |m| => (m[i].0, EncodeURIComponent(m[i].1)))
  }

  lemma {:induction false} ParseEncodedPair(k: string, v: string)
    requires PlainKey(k)
    ensures ParsePair(EncodePair((k, v))) == Some((k, EncodeURIComponent(v)))
  {
    var ev := EncodeURIComponent(v);
    assert EncodeURIComponent(k) == k;
    assert '=' !in k && '=' !in ev;
    SplitJoin([k, ev], '=');
    assert Join([k, ev], "=") == k + "=" + ev;
  }

  lemma {:induction false} CollectEncoded(m: Obj)
    requires DistinctKeys(m) && forall i :: 0 <= i < |m| ==> PlainKey(m[i].0)
    ensures Collect(EncodePairs(m)) == EncodeValues(m)
    decreases |m|
  {
    if m != [] {
      var init := m[..|m| - 1];
      var last := m[|m| - 1];
      assert m == init + [last];
      CollectEncoded(init);
      assert last.0 !in Keys(init) by {
        assert forall i :: 0 <= i < |init| ==> Keys(init)[i] == m[i].0;
      }
      CollectEncodedStep(init, last);
    }
  }

  lemma {:induction false} CollectEncodedStep(init: Obj, last: Entry)
    requires Collect(EncodePairs(init)) == EncodeValues(init)
    requires PlainKey(last.0) && last.0 !in Keys(init)
    ensures Collect(EncodePairs(init + [last])) == EncodeValues(init + [last])
  {
    var m := init + [last];
    var ps := EncodePairs(m);
    assert ps[..|ps| - 1] == EncodePairs(init);
    assert ps[|ps| - 1] == EncodePair(last);
    ParseEncodedPair(last.0, last.1);
    var o := EncodeValues(init);
    var ev := EncodeURIComponent(last.1);
    assert Collect(ps) == Assign(o, last.0, ev);
    EncodedKeys(init);
    DefineAbsent(o, last.0, ev);
    EncodeValuesSnoc(init, last);
  }

  lemma {:induction false} EncodeValuesSnoc(init: Obj, last: Entry)
    ensures EncodeValues(init + [last]) == EncodeValues(init) + [(last.0, EncodeURIComponent(last.1))]
  {
    var m := init + [last];
    var a := EncodeValues(m);
    var b := EncodeValues(init) + [(last.0, EncodeURIComponent(last.1))];
    assert |a| == |b|;
    forall i | 0 <= i < |a| ensures a[i] == b[i] {
      if i < |init| {
        assert m[i] == init[i];
      }
    }
  }

  lemma {:induction false} EncodedKeys(m: Obj)
    ensures Keys(EncodeValues(m)) == Keys(m)
  {
    var o := EncodeValues(m);
    assert forall i :: 0 <= i < |o| ==> Keys(o)[i] == m[i].0 == Keys(m)[i];
  }

  lemma {:induction false} DecodeEncodedValues(m: Obj)
    requires forall i :: 0 <= i < |m| ==> PlainValue(m[i].1)
    ensures DecodeValues(EncodeValues(m)) == Ok(m)
    decreases |m|
  {
    if m != [] {
      var init := m[..|m| - 1];
      var last := m[|m| - 1];
      assert m == init + [last];
      EncodeValuesSnoc(init, last);
      DecodeEncodedValues(init);
      DecodeEncode(last.1);
      StripIdentity(last.1, Whitespace);
      DecodeValuesSnoc(EncodeValues(init), (last.0, EncodeURIComponent(last.1)));
    }
  }

  /**
   * Decoding an encoding gives the object back, for distinct plain keys
   * that are not array indices and values without whitespace at the ends.
   */
  lemma {:induction false} RoundTrip(m: Obj)
    requires DistinctKeys(m) && NoIndexKeys(m)
    requires forall i :: 0 <= i < |m| ==> PlainKey(m[i].0) && PlainValue(m[i].1)
    ensures ParseQuery(QuerystringFromObject(m)) == Ok(m)
  {
    if m == [] {
      ParseQueryEmpty();
    } else {
      OwnOrderNoIndex(m);
      var pairs := EncodePairs(m);
      var body := Join(pairs, "&");
      var qs := QuerystringFromObject(m);
      assert qs == "?" + body;
      EncodedPiecesFree(m, '?');
      EncodedPiecesFree(m, '&');
      JoinFree(pairs, "&", '?');
      assert RemoveFirst(qs, '?') == body by {
        assert IndexOf(qs, '?') == 0;
      }
      SplitJoin(pairs, '&');
      CollectEncoded(m);
      DecodeEncodedValues(m);
    }
  }
}
