/** Ordered association tables: the model's stand-in for the czmq hash
    tables (zhash, zhashx) wherever iteration order reaches an output (LIST
    replies, serialised results and variables, the rule order of the asset
    index). czmq leaves that order unspecified; the model fixes it as
    insertion order, with an update of an existing key keeping its place. */
module Assoc {
  import opened Strings

  /** Keys are always strings in this agent (rule names, result keys, variable names). */
  type Table<V> = seq<(string, V)>

  function Keys<V>(t: Table<V>): (r: seq<string>)
    ensures |r| == |t|
    ensures forall i :: 0 <= i < |t| ==> r[i] == t[i].0
  {
    if |t| == 0 then [] else [t[0].0] + Keys(t[1..])
  }

  /** No key occurs twice, as in a hash table. */
  predicate DistinctKeys<V>(t: Table<V>)
  {
    forall i, j :: 0 <= i < j < |t| ==> t[i].0 != t[j].0
  }

  /** zhash_lookup: the value stored under k, if any. */
  function Lookup<V>(t: Table<V>, k: string): (r: Option<V>)
    ensures r.Some? <==> k in Keys(t)
    ensures r.Some? ==> (k, r.value) in t
  {
    if |t| == 0 then None
    else if t[0].0 == k then Some(t[0].1)
    else
      assert Keys(t) == [t[0].0] + Keys(t[1..]);
      Lookup(t[1..], k)
  }

  /** The value stored under the key at position i of a table without duplicate keys. */
  lemma LookupAt<V>(t: Table<V>, i: nat)
    requires DistinctKeys(t) && i < |t|
    ensures Lookup(t, t[i].0) == Some(t[i].1)
  {
    if i > 0 {
      assert DistinctKeys(t[1..]);
      LookupAt(t[1..], i - 1);
    }
  }

  /** A table without duplicate keys: its tail has none, and its first key
      is not among the tail's. */
  lemma TailDistinct<V>(t: Table<V>)
    requires |t| > 0
    ensures DistinctKeys(t) ==> DistinctKeys(t[1..]) && t[0].0 !in Keys(t[1..])
  {
    if DistinctKeys(t) {
      assert forall i, j :: 0 <= i < j < |t| - 1 ==> t[1..][i].0 == t[i + 1].0 && t[1..][j].0 == t[j + 1].0;
    }
  }

  /** A new first key keeps a table free of duplicate keys. */
  lemma ConsDistinct<V>(e: (string, V), t: Table<V>)
    ensures DistinctKeys(t) && e.0 !in Keys(t) ==> DistinctKeys([e] + t)
  {
    if DistinctKeys(t) && e.0 !in Keys(t) {
      var u := [e] + t;
      forall i, j | 0 <= i < j < |u|
        ensures u[i].0 != u[j].0
      {
        assert u[j] == t[j - 1];
        if i > 0 {
          assert u[i] == t[i - 1];
        } else {
          assert Keys(t)[j - 1] == t[j - 1].0;
        }
      }
    }
  }

  /** The step of Put past a first entry with another key: lookups. */
  lemma PutStepLookup<V>(t: Table<V>, k: string, v: V, rest: Table<V>)
    requires |t| > 0 && t[0].0 != k
    requires Lookup(rest, k) == Some(v)
    requires forall k' :: k' != k ==> Lookup(rest, k') == Lookup(t[1..], k')
    ensures Lookup([t[0]] + rest, k) == Some(v)
    ensures forall k' :: k' != k ==> Lookup([t[0]] + rest, k') == Lookup(t, k')
  {
    assert ([t[0]] + rest)[1..] == rest;
  }

  /** The keys of a table with one more entry in front. */
  lemma KeysCons<V>(e: (string, V), t: Table<V>)
    ensures Keys([e] + t) == [e.0] + Keys(t)
  {
    assert ([e] + t)[1..] == t;
  }

  /** The step of Put past a first entry with another key: keys. */
  lemma PutStepKeys<V>(t: Table<V>, k: string, rest: Table<V>)
    requires |t| > 0 && t[0].0 != k
    requires Keys(rest) == if k in Keys(t[1..]) then Keys(t[1..]) else Keys(t[1..]) + [k]
    ensures Keys([t[0]] + rest) == if k in Keys(t) then Keys(t) else Keys(t) + [k]
  {
    KeysCons(t[0], rest);
    assert t == [t[0]] + t[1..];
    KeysCons(t[0], t[1..]);
    if k !in Keys(t[1..]) {
      assert [t[0].0] + (Keys(t[1..]) + [k]) == ([t[0].0] + Keys(t[1..])) + [k];
    }
  }

  /** The step of Put past a first entry with another key: no key twice. */
  lemma PutStepDistinct<V>(t: Table<V>, k: string, rest: Table<V>)
    requires |t| > 0 && t[0].0 != k
    requires Keys(rest) == if k in Keys(t[1..]) then Keys(t[1..]) else Keys(t[1..]) + [k]
    requires DistinctKeys(t[1..]) ==> DistinctKeys(rest)
    ensures DistinctKeys(t) ==> DistinctKeys([t[0]] + rest)
  {
    TailDistinct(t);
    if DistinctKeys(t) {
      assert t[0].0 !in Keys(rest);
      ConsDistinct(t[0], rest);
    }
  }

  /** The step of Put at a first entry with key k. */
  lemma PutHere<V>(t: Table<V>, k: string, v: V)
    requires |t| > 0 && t[0].0 == k
    ensures Lookup([(k, v)] + t[1..], k) == Some(v)
    ensures forall k' :: k' != k ==> Lookup([(k, v)] + t[1..], k') == Lookup(t, k')
    ensures Keys([(k, v)] + t[1..]) == Keys(t)
    ensures DistinctKeys(t) ==> DistinctKeys([(k, v)] + t[1..])
  {
    assert ([(k, v)] + t[1..])[1..] == t[1..];
    assert Keys(t) == [t[0].0] + Keys(t[1..]);
    assert Keys([(k, v)] + t[1..]) == [k] + Keys(t[1..]);
    TailDistinct(t);
    ConsDistinct((k, v), t[1..]);
  }

  /** zhash_update: replace the value under k in place, or append a new entry. */
  function Put<V>(t: Table<V>, k: string, v: V): (r: Table<V>)
    ensures Lookup(r, k) == Some(v)
    ensures forall k' :: k' != k ==> Lookup(r, k') == Lookup(t, k')
    ensures Keys(r) == if k in Keys(t) then Keys(t) else Keys(t) + [k]
    ensures DistinctKeys(t) ==> DistinctKeys(r)
  {
    if |t| == 0 then [(k, v)]
    else if t[0].0 == k then
      PutHere(t, k, v);
      [(k, v)] + t[1..]
    else
      var rest := Put(t[1..], k, v);
      PutStepLookup(t, k, v, rest);
      PutStepKeys(t, k, rest);
      PutStepDistinct(t, k, rest);
      [t[0]] + rest
  }

  /** zhashx_insert: add the entry only when k is new; an existing value is kept. */
  function InsertNew<V>(t: Table<V>, k: string, v: V): (r: Table<V>)
    ensures k in Keys(t) ==> r == t
    ensures k !in Keys(t) ==> r == t + [(k, v)]
    ensures Lookup(r, k) == Some(Lookup(t, k).GetOr(v))
    ensures forall k' :: k' != k ==> Lookup(r, k') == Lookup(t, k')
    ensures DistinctKeys(t) ==> DistinctKeys(r)
  {
    if k in Keys(t) then t
    else
      PutNew(t, k, v);
      Put(t, k, v)
  }

  /** zhash_delete: drop the entry under k; the others keep their order. */
  function Remove<V>(t: Table<V>, k: string): (r: Table<V>)
    ensures Lookup(r, k) == None
    ensures forall k' :: k' != k ==> Lookup(r, k') == Lookup(t, k')
    ensures forall i :: 0 <= i < |r| ==> r[i] in t
    ensures DistinctKeys(t) ==> DistinctKeys(r)
  {
    if |t| == 0 then []
    else
      var rest := Remove(t[1..], k);
      assert Keys(t) == [t[0].0] + Keys(t[1..]);
      if t[0].0 == k then rest
      else
        assert Keys([t[0]] + rest) == [t[0].0] + Keys(rest);
        [t[0]] + rest
  }

  /** Putting under a key that is the last entry and occurs nowhere earlier
      rewrites that last entry. */
  lemma PutLast<V>(p: Table<V>, k: string, v: V, w: V)
    requires k !in Keys(p)
    ensures Put(p + [(k, v)], k, w) == p + [(k, w)]
  {
    if |p| > 0 {
      var q := p + [(k, v)];
      assert q[0] == p[0];
      ConsSnoc(p, (k, v));
      ConsSnoc(p, (k, w));
      assert Keys(p) == [p[0].0] + Keys(p[1..]);
      PutLast(p[1..], k, v, w);
    }
  }

  /** Putting a key that is new appends it. */
  lemma PutNew<V>(t: Table<V>, k: string, v: V)
    requires k !in Keys(t)
    ensures Put(t, k, v) == t + [(k, v)]
  {
    if |t| > 0 {
      assert Keys(t) == [t[0].0] + Keys(t[1..]);
      PutNew(t[1..], k, v);
      ConsSnoc(t, (k, v));
    }
  }

  /** A table with one more entry at the end, split at its first entry. */
  lemma ConsSnoc<V>(t: Table<V>, e: (string, V))
    requires |t| > 0
    ensures (t + [e])[1..] == t[1..] + [e]
    ensures [t[0]] + (t[1..] + [e]) == t + [e]
  {
  }

  /** A second put under the same key overrides the first. */
  lemma {:induction false} PutPut<V>(t: Table<V>, k: string, v: V, w: V)
    ensures Put(Put(t, k, v), k, w) == Put(t, k, w)
    decreases |t|
  {
    if |t| > 0 && t[0].0 != k {
      PutPut(t[1..], k, v, w);
      var rest := Put(t[1..], k, v);
      assert ([t[0]] + rest)[1..] == rest;
    }
  }

  lemma KeysSnoc<V>(t: Table<V>, e: (string, V))
    ensures Keys(t + [e]) == Keys(t) + [e.0]
  {
  }

  /** Every entry after a put is an entry of the table or the one put. */
  lemma {:induction false} PutEntries<V>(t: Table<V>, k: string, v: V)
    ensures forall e :: e in Put(t, k, v) ==> e in t || e == (k, v)
    decreases |t|
  {
    if |t| > 0 && t[0].0 != k {
      PutEntries(t[1..], k, v);
    }
  }
}
