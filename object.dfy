/**
  A plain JavaScript object used as a dictionary, as the tracking log and its
  per-character counters are. `Object.keys` (which underscore's `_.each`,
  `_.find` and `_.isEmpty` use) lists the keys that are array indices first,
  in ascending numeric order, then the other keys in the order they were
  created.
*/
module JsObject {
  import opened JsText

  /** The object's own keys in creation order, and the value under each. */
  datatype Dict<V> = Dict(keys: seq<string>, values: map<string, V>)

  /** Keys are listed once each, and exactly the keys that have a value. */
  ghost predicate DictOk<V>(d: Dict<V>)
  {
    && (forall i, j :: 0 <= i < j < |d.keys| ==> d.keys[i] != d.keys[j])
    && (forall k :: k in d.values <==> k in d.keys)
  }

  /** `{}`. */
  function EmptyDict<V>(): (d: Dict<V>)
    ensures DictOk(d) && |d.keys| == 0 && d.values == map[]
  {
    Dict([], map[])
  }

  /** `_.isEmpty(o)`: no own keys. */
  predicate IsEmpty<V>(d: Dict<V>)
  {
    |d.keys| == 0
  }

  /** `o[k] = v`: the value under `k` is set and no other key's presence or value changes. */
  function Put<V>(d: Dict<V>, k: string, v: V): (r: Dict<V>)
    requires DictOk(d)
    ensures DictOk(r) && !IsEmpty(r)
    ensures k in r.values && r.values[k] == v
    ensures forall k' :: k' != k ==> (k' in r.values <==> k' in d.values)
    ensures forall k' :: k' != k && k' in d.values ==> r.values[k'] == d.values[k']
  {
    if k in d.values then Dict(d.keys, d.values[k := v])
    else Dict(d.keys + [k], d.values[k := v])
  }

  /** Existing keys keep their places; a new key is listed after them. */
  lemma PutKeyOrder<V>(d: Dict<V>, k: string, v: V)
    requires DictOk(d)
    ensures k in d.values ==> Put(d, k, v).keys == d.keys
    ensures k !in d.values ==> Put(d, k, v).keys == d.keys + [k]
  {
  }

  /** A canonical array index: "0" or digits without a leading zero, below 2^32 - 1. */
  predicate IsArrayIndex(k: string)
  {
    |k| > 0 && AllDigits(k) && (k[0] != '0' || |k| == 1) && DigitsValue(k) < 0xFFFF_FFFF
  }

  /** The keys that are array indices, in their given order. */
  function IndexKeys(ks: seq<string>): (r: seq<string>)
    ensures forall i :: 0 <= i < |r| ==> IsArrayIndex(r[i])
  {
    if ks == [] then []
    else if IsArrayIndex(ks[0]) then [ks[0]] + IndexKeys(ks[1..])
    else IndexKeys(ks[1..])
  }

  /** The other keys, in their given order. */
  function NamedKeys(ks: seq<string>): (r: seq<string>)
    ensures forall i :: 0 <= i < |r| ==> !IsArrayIndex(r[i])
  {
    if ks == [] then []
    else if IsArrayIndex(ks[0]) then NamedKeys(ks[1..])
    else [ks[0]] + NamedKeys(ks[1..])
  }

  predicate AllIndices(s: seq<string>)
  {
    forall i :: 0 <= i < |s| ==> IsArrayIndex(s[i])
  }

  /** The numeric value of an index key. */
  function IndexValue(k: string): nat
  {
    if AllDigits(k) then DigitsValue(k) else 0
  }

  /** Ascending by numeric value. */
  predicate SortedByValue(s: seq<string>)
  {
    forall i, j :: 0 <= i < j < |s| ==> IndexValue(s[i]) <= IndexValue(s[j])
  }

  /** Insert an index key into an ascending list of index keys. */
  function InsertByValue(k: string, s: seq<string>): (r: seq<string>)
    requires IsArrayIndex(k) && AllIndices(s) && SortedByValue(s)
    ensures AllIndices(r) && SortedByValue(r)
    ensures multiset(r) == multiset(s) + multiset{k}
    ensures |r| > 0 && (r[0] == k || (|s| > 0 && r[0] == s[0]))
  {
    if s == [] then [k]
    else if IndexValue(k) <= IndexValue(s[0]) then [k] + s
    else
      var tail := InsertByValue(k, s[1..]);
      assert s == [s[0]] + s[1..];
      HeadBelowInsert(k, s, tail);
      ConsSorted(s[0], tail);
      [s[0]] + tail
  }

  /** Every key of an insertion into the rest of `s` is at least `s[0]` when `k` is. */
  lemma HeadBelowInsert(k: string, s: seq<string>, tail: seq<string>)
    requires IsArrayIndex(k) && |s| > 0 && AllIndices(s) && SortedByValue(s)
    requires IndexValue(s[0]) < IndexValue(k)
    requires multiset(tail) == multiset(s[1..]) + multiset{k}
    ensures forall j :: 0 <= j < |tail| ==> IndexValue(s[0]) <= IndexValue(tail[j])
  {
    forall j | 0 <= j < |tail|
      ensures IndexValue(s[0]) <= IndexValue(tail[j])
    {
      assert tail[j] in multiset(tail);
      if tail[j] != k {
        assert tail[j] in multiset(s[1..]);
        var m :| 0 <= m < |s[1..]| && s[1..][m] == tail[j];
        assert s[m + 1] == tail[j];
      }
    }
  }

  lemma ConsSorted(x: string, tail: seq<string>)
    requires IsArrayIndex(x) && AllIndices(tail) && SortedByValue(tail)
    requires forall j :: 0 <= j < |tail| ==> IndexValue(x) <= IndexValue(tail[j])
    ensures AllIndices([x] + tail) && SortedByValue([x] + tail)
  {
    var r := [x] + tail;
    assert forall j :: 0 < j < |r| ==> r[j] == tail[j - 1];
  }

  /** Sort index keys by numeric value. */
  function SortByValue(s: seq<string>): (r: seq<string>)
    requires AllIndices(s)
    ensures AllIndices(r) && SortedByValue(r)
    ensures multiset(r) == multiset(s)
  {
    if s == [] then []
    else
      assert s == [s[0]] + s[1..];
      InsertByValue(s[0], SortByValue(s[1..]))
  }

  /**
    The order `Object.keys` lists keys created in the order `ks`: array
    indices ascending, then the other keys as created. Every key is listed
    exactly once, and when no key is an array index the order is creation order.
  */
  function EnumOrder(ks: seq<string>): (r: seq<string>)
    ensures multiset(r) == multiset(ks)
    ensures forall k :: k in r <==> k in ks
    ensures NoIndexKeys(ks) ==> r == ks
  {
    SplitKeys(ks);
    assert NoIndexKeys(ks) ==> IndexKeys(ks) == [] && NamedKeys(ks) == ks by {
      if NoIndexKeys(ks) {
        NoIndexKeysSplit(ks);
      }
    }
    var r := SortByValue(IndexKeys(ks)) + NamedKeys(ks);
    assert forall k :: k in r <==> k in multiset(r);
    r
  }

  predicate NoIndexKeys(ks: seq<string>)
  {
    forall i :: 0 <= i < |ks| ==> !IsArrayIndex(ks[i])
  }

  lemma {:induction false} SplitKeys(ks: seq<string>)
    ensures multiset(IndexKeys(ks)) + multiset(NamedKeys(ks)) == multiset(ks)
  {
    if ks != [] {
      SplitKeys(ks[1..]);
      assert ks == [ks[0]] + ks[1..];
    }
  }

  lemma {:induction false} NoIndexKeysSplit(ks: seq<string>)
    requires NoIndexKeys(ks)
    ensures IndexKeys(ks) == [] && NamedKeys(ks) == ks
  {
    if ks != [] {
      assert !IsArrayIndex(ks[0]);
      NoIndexKeysSplit(ks[1..]);
      assert ks == [ks[0]] + ks[1..];
    }
  }
}
