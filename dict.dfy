/** Insertion-ordered dictionaries with string keys, as Python's `dict`:
    a key list in first-insertion order beside the key-value map. */
module Dict {
  datatype ODict<V> = ODict(keys: seq<string>, vals: map<string, V>)

  /** The key list has no repeats and lists exactly the mapped keys. */
  predicate Valid<V>(d: ODict<V>) {
    && (forall i, j :: 0 <= i < j < |d.keys| ==> d.keys[i] != d.keys[j])
    && (forall k :: k in d.vals ==> k in d.keys)
    && (forall i :: 0 <= i < |d.keys| ==> d.keys[i] in d.vals)
  }

  function Empty<V>(): ODict<V> {
    ODict([], map[])
  }

  /** `d.get(k, dflt)`. */
  function Get<V>(d: ODict<V>, k: string, dflt: V): V {
    if k in d.vals then d.vals[k] else dflt
  }

  /** `d[k] = v`: a new key goes to the end of the order, an existing key
      keeps its place. */
  function Put<V>(d: ODict<V>, k: string, v: V): ODict<V> {
    if k in d.vals then ODict(d.keys, d.vals[k := v]) else ODict(d.keys + [k], d.vals[k := v])
  }

  lemma EmptyValid<V>()
    ensures Valid(Empty<V>())
  {
  }

  /** Storing under `k` changes the value of `k` alone, keeps the order of
      the keys already present and appends `k` if it is new. */
  lemma PutFacts<V>(d: ODict<V>, k: string, v: V, k': string, dflt: V)
    requires Valid(d)
    ensures Valid(Put(d, k, v))
    ensures Get(Put(d, k, v), k', dflt) == if k' == k then v else Get(d, k', dflt)
    ensures k' in Put(d, k, v).vals <==> k' in d.vals || k' == k
    ensures Put(d, k, v).keys == if k in d.vals then d.keys else d.keys + [k]
  {
  }

  /** A second store under the same key overrides the first. */
  lemma PutPut<V>(d: ODict<V>, k: string, v: V, w: V)
    ensures Put(Put(d, k, v), k, w) == Put(d, k, w)
  {
    assert d.vals[k := v][k := w] == d.vals[k := w];
  }

  /** Reading after a store. */
  lemma PutGet<V>(d: ODict<V>, k: string, v: V, k': string, dflt: V)
    ensures Get(Put(d, k, v), k', dflt) == if k' == k then v else Get(d, k', dflt)
  {
  }

  /** The key order after storing under each of `names` in turn: a name
      not present yet goes to the end, in the order of its first store. */
  function Extended(keys: seq<string>, names: seq<string>): seq<string> {
    if |names| == 0 then keys
    else
      var e := Extended(keys, names[..|names| - 1]);
      var k := names[|names| - 1];
      if k in e then e else e + [k]
  }

  /** The keys present before keep their places at the front. */
  lemma {:induction false} ExtendedPrefix(keys: seq<string>, names: seq<string>)
    ensures keys <= Extended(keys, names)
  {
    if |names| > 0 {
      ExtendedPrefix(keys, names[..|names| - 1]);
    }
  }

  /** Storing under `a` and then under `b` orders the keys as storing under
      `a + b`. */
  lemma {:induction false} ExtendedAppend(keys: seq<string>, a: seq<string>, b: seq<string>)
    ensures Extended(Extended(keys, a), b) == Extended(keys, a + b)
  {
    if |b| == 0 {
      assert a + b == a;
    } else {
      ExtendedAppend(keys, a, b[..|b| - 1]);
      assert (a + b)[..|a + b| - 1] == a + b[..|b| - 1];
      assert (a + b)[|a + b| - 1] == b[|b| - 1];
    }
  }

  /** One store orders the keys as `Extended` says. */
  lemma PutOrder<V>(d: ODict<V>, k: string, v: V)
    requires Valid(d)
    ensures Put(d, k, v).keys == Extended(d.keys, [k])
  {
    assert [k][..0] == [];
    assert k in d.vals <==> k in d.keys;
  }
}
