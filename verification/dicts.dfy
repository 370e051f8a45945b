/**
 A Python `dict` with string keys, as the pricing code uses it: a list of entries in
 insertion order. `Get` reads the first entry carrying a key, `Put` overwrites that entry in
 place or appends a new one at the end, exactly as `d[k] = v` does; iteration over a dict is
 iteration over this list.
 */
module Dicts {
  import opened Wrappers

  type Dict<V> = seq<(string, V)>

  /** The keys in iteration order. */
  function Keys<V>(d: Dict<V>): seq<string> {
    seq(|d|, i requires 0 <= i < |d| => d[i].0)
  }

  lemma KeysCons<V>(d: Dict<V>)
    requires d != []
    ensures Keys(d) == [d[0].0] + Keys(d[1..])
  {
  }

  /** A key of the dict is exactly a string that some entry carries. */
  lemma KeysMember<V>(d: Dict<V>, k: string)
    ensures k in Keys(d) <==> exists i :: 0 <= i < |d| && d[i].0 == k
  {
    if exists i :: 0 <= i < |d| && d[i].0 == k {
      var i :| 0 <= i < |d| && d[i].0 == k;
      assert Keys(d)[i] == k;
    }
  }

  /** No string occurs twice. */
  predicate Distinct(s: seq<string>) {
    forall i, j :: 0 <= i < j < |s| ==> s[i] != s[j]
  }

  /** Every real Python dict satisfies this. */
  predicate DistinctKeys<V>(d: Dict<V>) {
    Distinct(Keys(d))
  }

  /** `d.get(k)`: the value of the first entry with key k, None when k is not a key. */
  function Get<V>(d: Dict<V>, k: string): (r: Option<V>)
    ensures r.Some? <==> k in Keys(d)
    ensures r.Some? ==> (k, r.value) in d
  {
    if d == [] then None
    else if d[0].0 == k then KeysCons(d); Some(d[0].1)
    else KeysCons(d); Get(d[1..], k)
  }

  /** `d[k] = v`: the entry for k is overwritten in place, or appended when k is new. */
  function Put<V>(d: Dict<V>, k: string, v: V): (r: Dict<V>)
    ensures Get(r, k) == Some(v)
    ensures forall k' :: k' != k ==> Get(r, k') == Get(d, k')
  {
    if d == [] then [(k, v)]
    else if d[0].0 == k then [(k, v)] + d[1..]
    else [d[0]] + Put(d[1..], k, v)
  }

  /** On a dict without repeated keys, Get finds exactly the entries the dict holds. */
  lemma {:induction false} GetMember<V>(d: Dict<V>, k: string, v: V)
    requires DistinctKeys(d)
    ensures Get(d, k) == Some(v) <==> (k, v) in d
  {
    if d != [] && d[0].0 != k {
      DistinctTail(d);
      GetMember(d[1..], k, v);
      assert (k, v) in d <==> (k, v) in d[1..] by {
        assert d == [d[0]] + d[1..];
      }
    } else if d != [] {
      forall i | 0 < i < |d| ensures d[i].0 != k {
        assert Keys(d)[0] != Keys(d)[i];
      }
    }
  }

  /** Dropping the first entry of a dict without repeated keys leaves one, without that key. */
  lemma DistinctTail<V>(d: Dict<V>)
    requires d != []
    ensures DistinctKeys(d) ==> DistinctKeys(d[1..]) && d[0].0 !in Keys(d[1..])
  {
    KeysCons(d);
    if !DistinctKeys(d) {
      return;
    }
    forall i, j | 0 <= i < j < |d[1..]| ensures Keys(d[1..])[i] != Keys(d[1..])[j] {
      assert Keys(d[1..])[i] == Keys(d)[i + 1];
      assert Keys(d[1..])[j] == Keys(d)[j + 1];
    }
    forall i | 0 <= i < |d[1..]| ensures Keys(d[1..])[i] != d[0].0 {
      assert Keys(d[1..])[i] == Keys(d)[i + 1];
      assert Keys(d)[0] == d[0].0;
      assert Keys(d)[0] != Keys(d)[i + 1];
    }
  }

  /** Put keeps the key order: an existing key stays where it is, a new key goes last. */
  lemma {:induction false} PutKeys<V>(d: Dict<V>, k: string, v: V)
    ensures Keys(Put(d, k, v)) == if k in Keys(d) then Keys(d) else Keys(d) + [k]
  {
    if d != [] && d[0].0 != k {
      PutKeys(d[1..], k, v);
      var r := Put(d, k, v);
      assert r == [d[0]] + Put(d[1..], k, v);
      assert r[1..] == Put(d[1..], k, v);
      KeysCons(r);
      KeysCons(d);
    } else if d != [] {
      var r := Put(d, k, v);
      assert r[1..] == d[1..];
      KeysCons(r);
      KeysCons(d);
    }
  }

  /** Put keeps a dict free of repeated keys. */
  lemma PutDistinct<V>(d: Dict<V>, k: string, v: V)
    requires DistinctKeys(d)
    ensures DistinctKeys(Put(d, k, v))
  {
    PutKeys(d, k, v);
  }

  /** `sum(d.values())` for a dict of amounts, added in iteration order. */
  function SumValues(d: Dict<real>): real {
    if d == [] then 0.0 else d[0].1 + SumValues(d[1..])
  }

  /** A dict whose amounts are all non-negative sums to a non-negative amount. */
  lemma {:induction false} SumValuesNonNegative(d: Dict<real>)
    requires forall i :: 0 <= i < |d| ==> d[i].1 >= 0.0
    ensures SumValues(d) >= 0.0
  {
    if d != [] {
      SumValuesNonNegative(d[1..]);
    }
  }
}
