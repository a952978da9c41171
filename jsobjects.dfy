/**
 * A plain JavaScript object with string-valued properties, held as its
 * own properties in insertion order, together with the order in which
 * Object.keys, Object.entries and for-in enumerate them (array-index
 * keys first, ascending, then the other keys in insertion order).
 */
module JsObjects {
  import opened Js

  type Entry = (string, string)

  /** Own properties in the order they were first created. */
  type Obj = seq<Entry>

  function Keys(o: Obj): (ks: seq<string>)
    ensures |ks| == |o| && forall i :: 0 <= i < |o| ==> ks[i] == o[i].0
    decreases |o|
  {
    if o == [] then [] else [o[0].0] + Keys(o[1..])
  }

  predicate DistinctKeys(o: Obj) {
    forall i, j :: 0 <= i < j < |o| ==> o[i].0 != o[j].0
  }

  /** `o[k]` for an own property, None when there is none. */
  function Get(o: Obj, k: string): (r: Option<string>)
    ensures r.None? <==> k !in Keys(o)
    decreases |o|
  {
    if o == [] then None
    else if o[0].0 == k then Some(o[0].1)
    else Get(o[1..], k)
  }

  /**
   * CreateDataProperty(o, k, v): an existing property keeps its place and
   * takes the new value; a new one goes last.
   */
  function Define(o: Obj, k: string, v: string): (r: Obj)
    decreases |o|
  {
    if o == [] then [(k, v)]
    else if o[0].0 == k then [(k, v)] + o[1..]
    else [o[0]] + Define(o[1..], k, v)
  }

  /** What Define changes: k has the new value, every other key keeps its own. */
  lemma {:induction false} DefineGet(o: Obj, k: string, v: string)
    ensures Get(Define(o, k, v), k) == Some(v)
    ensures forall k' :: k' != k ==> Get(Define(o, k, v), k') == Get(o, k')
    decreases |o|
  {
    if o != [] && o[0].0 != k {
      DefineGet(o[1..], k, v);
      assert Define(o, k, v)[1..] == Define(o[1..], k, v);
    }
  }

  /** Where Define puts k: in place when present, last when absent. */
  lemma {:induction false} DefineKeys(o: Obj, k: string, v: string)
    ensures k in Keys(o) ==> Keys(Define(o, k, v)) == Keys(o)
    ensures k !in Keys(o) ==> Keys(Define(o, k, v)) == Keys(o) + [k]
    decreases |o|
  {
    if o != [] && o[0].0 != k {
      DefineKeys(o[1..], k, v);
      KeysCons(o[0], Define(o[1..], k, v));
      KeysCons(o[0], o[1..]);
    } else if o != [] {
      KeysCons((k, v), o[1..]);
      KeysCons(o[0], o[1..]);
    }
  }

  lemma {:induction false} KeysCons(e: Entry, o: Obj)
    ensures Keys([e] + o) == [e.0] + Keys(o)
  {
    assert ([e] + o)[1..] == o;
  }

  /** A new key goes last. */
  lemma {:induction false} DefineAbsent(o: Obj, k: string, v: string)
    requires k !in Keys(o)
    ensures Define(o, k, v) == o + [(k, v)]
    decreases |o|
  {
    if o != [] {
      KeysCons(o[0], o[1..]);
      assert o == [o[0]] + o[1..];
      DefineAbsent(o[1..], k, v);
    }
  }

  /** Define keeps keys distinct. */
  lemma {:induction false} DefineDistinct(o: Obj, k: string, v: string)
    ensures DistinctKeys(o) ==> DistinctKeys(Define(o, k, v))
  {
    if !DistinctKeys(o) { return; }
    var r := Define(o, k, v);
    DefineKeys(o, k, v);
    assert |Keys(r)| == |r|;
    forall i, j | 0 <= i < j < |r| ensures r[i].0 != r[j].0 {
      assert r[i].0 == Keys(r)[i] && r[j].0 == Keys(r)[j];
      if k in Keys(o) {
        assert Keys(o)[i] == o[i].0 && Keys(o)[j] == o[j].0;
      } else if j < |o| {
        assert Keys(o)[i] == o[i].0 && Keys(o)[j] == o[j].0;
      } else {
        assert Keys(o)[i] == o[i].0;
      }
    }
  }

  /**
   * The assignment `o[k] = v` of a string on a plain object. When "__proto__"
   * is not an own property, the assignment reaches the inherited
   * __proto__ setter, which ignores a non-object value: nothing changes.
   */
  function Assign(o: Obj, k: string, v: string): (r: Obj)
    ensures k == "__proto__" && k !in Keys(o) ==> r == o
    ensures !(k == "__proto__" && k !in Keys(o)) ==> Get(r, k) == Some(v)
    ensures forall k' :: k' != k ==> Get(r, k') == Get(o, k')
    ensures k in Keys(o) ==> Keys(r) == Keys(o)
    ensures k !in Keys(o) && k != "__proto__" ==> Keys(r) == Keys(o) + [k]
    ensures DistinctKeys(o) ==> DistinctKeys(r)
  {
    DefineGet(o, k, v);
    DefineKeys(o, k, v);
    DefineDistinct(o, k, v);
    if k == "__proto__" && k !in Keys(o) then o else Define(o, k, v)
  }

  predicate IsDigit(c: char) {
    '0' <= c <= '9'
  }

  function DigitsValue(k: string): nat
    requires forall i :: 0 <= i < |k| ==> IsDigit(k[i])
    decreases |k|
  {
    if k == [] then 0
    else
      assert IsDigit(k[|k| - 1]);
      DigitsValue(k[..|k| - 1]) * 10 + (k[|k| - 1] as int - '0' as int)
  }

  /** An array index: the canonical decimal form of an integer below 2^32 - 1. */
  predicate IsArrayIndex(k: string) {
    && |k| >= 1
    && (forall i :: 0 <= i < |k| ==> IsDigit(k[i]))
    && (k[0] != '0' || |k| == 1)
    && DigitsValue(k) < 0xFFFF_FFFF
  }

  function IndexValue(e: Entry): nat
    requires IsArrayIndex(e.0)
  {
    DigitsValue(e.0)
  }

  predicate IndexSorted(es: seq<Entry>)
    requires forall i :: 0 <= i < |es| ==> IsArrayIndex(es[i].0)
  {
    forall i, j :: 0 <= i < j < |es| ==> IndexValue(es[i]) <= IndexValue(es[j])
  }

  function InsertByIndex(e: Entry, es: seq<Entry>): (r: seq<Entry>)
    requires IsArrayIndex(e.0) && forall i :: 0 <= i < |es| ==> IsArrayIndex(es[i].0)
    ensures forall i :: 0 <= i < |r| ==> IsArrayIndex(r[i].0)
    ensures multiset(r) == multiset(es) + multiset{e}
    decreases |es|
  {
    if es == [] || IndexValue(e) <= IndexValue(es[0]) then [e] + es
    else
      assert es == [es[0]] + es[1..];
      [es[0]] + InsertByIndex(e, es[1..])
  }

  predicate AllAtLeast(b: nat, es: seq<Entry>)
    requires forall i :: 0 <= i < |es| ==> IsArrayIndex(es[i].0)
  {
    forall i :: 0 <= i < |es| ==> b <= IndexValue(es[i])
  }

  lemma {:induction false} InsertAtLeast(b: nat, e: Entry, es: seq<Entry>)
    requires IsArrayIndex(e.0) && forall i :: 0 <= i < |es| ==> IsArrayIndex(es[i].0)
    requires b <= IndexValue(e) && AllAtLeast(b, es)
    ensures AllAtLeast(b, InsertByIndex(e, es))
    decreases |es|
  {
    if es != [] && IndexValue(e) > IndexValue(es[0]) {
      InsertAtLeast(b, e, es[1..]);
    }
  }

  /** Inserting into a sorted sequence keeps it sorted. */
  lemma {:induction false} InsertSorted(e: Entry, es: seq<Entry>)
    requires IsArrayIndex(e.0) && forall i :: 0 <= i < |es| ==> IsArrayIndex(es[i].0)
    requires IndexSorted(es)
    ensures IndexSorted(InsertByIndex(e, es))
    decreases |es|
  {
    if es != [] && IndexValue(e) > IndexValue(es[0]) {
      var rest := InsertByIndex(e, es[1..]);
      InsertSorted(e, es[1..]);
      InsertAtLeast(IndexValue(es[0]), e, es[1..]);
      var r := [es[0]] + rest;
      assert InsertByIndex(e, es) == r;
      forall i, j | 0 <= i < j < |r| ensures IndexValue(r[i]) <= IndexValue(r[j]) {
        if i == 0 {
          assert r[j] == rest[j - 1];
        } else {
          assert r[i] == rest[i - 1] && r[j] == rest[j - 1];
        }
      }
    }
  }

  function SortByIndex(es: seq<Entry>): (r: seq<Entry>)
    requires forall i :: 0 <= i < |es| ==> IsArrayIndex(es[i].0)
    ensures forall i :: 0 <= i < |r| ==> IsArrayIndex(r[i].0)
    ensures IndexSorted(r)
    ensures multiset(r) == multiset(es)
    decreases |es|
  {
    if es == [] then []
    else
      assert es == [es[0]] + es[1..];
      InsertSorted(es[0], SortByIndex(es[1..]));
      InsertByIndex(es[0], SortByIndex(es[1..]))
  }

  function IndexEntries(o: Obj): (r: seq<Entry>)
    ensures forall i :: 0 <= i < |r| ==> IsArrayIndex(r[i].0)
    decreases |o|
  {
    if o == [] then []
    else (if IsArrayIndex(o[0].0) then [o[0]] else []) + IndexEntries(o[1..])
  }

  function OtherEntries(o: Obj): (r: seq<Entry>)
    decreases |o|
  {
    if o == [] then []
    else (if IsArrayIndex(o[0].0) then [] else [o[0]]) + OtherEntries(o[1..])
  }

  predicate NoIndexKeys(o: Obj) {
    forall i :: 0 <= i < |o| ==> !IsArrayIndex(o[i].0)
  }

  /**
   * Object.entries(o): the array-index properties by ascending index,
   * then the others in insertion order.
   */
  function OwnOrder(o: Obj): (r: Obj)
    ensures multiset(r) == multiset(o)
  {
    var r := SortByIndex(IndexEntries(o)) + OtherEntries(o);
    EntriesSplit(o);
    r
  }

  lemma {:induction false} EntriesSplit(o: Obj)
    ensures multiset(IndexEntries(o)) + multiset(OtherEntries(o)) == multiset(o)
    decreases |o|
  {
    if o != [] {
      EntriesSplit(o[1..]);
      assert o == [o[0]] + o[1..];
    }
  }

  /** With no array-index key, enumeration order is insertion order. */
  lemma {:induction false} OwnOrderNoIndex(o: Obj)
    requires NoIndexKeys(o)
    ensures OwnOrder(o) == o
  {
    NoIndexEntries(o);
  }

  lemma {:induction false} NoIndexEntries(o: Obj)
    requires NoIndexKeys(o)
    ensures IndexEntries(o) == [] && OtherEntries(o) == o
    decreases |o|
  {
    if o != [] {
      NoIndexEntries(o[1..]);
      assert [o[0]] + o[1..] == o;
    }
  }
}
