/** Ordered trees of byte strings, and the number of bytes their values hold. */
module Trees {
  import opened Bytes

  const I64_LIMIT: int := 0x8000_0000_0000_0000
  const U64_LIMIT: int := 0x1_0000_0000_0000_0000

  /** A byte slice; no slice in memory is longer than an i64 can count. */
  type Payload = p: seq<byte> | |p| < I64_LIMIT

  type Tree = map<Key, Payload>

  ghost function SumLens(t: Tree): nat
    decreases |t.Keys|
  {
    if t.Keys == {} then 0
    else
      var k :| k in t;
      assert (t - {k}).Keys == t.Keys - {k};
      |t[k]| + SumLens(t - {k})
  }

  lemma {:induction false} SumLensRemove(t: Tree, k: Key)
    requires k in t
    ensures SumLens(t) == |t[k]| + SumLens(t - {k})
    decreases |t.Keys|
  {
    var c :| c in t && SumLens(t) == |t[c]| + SumLens(t - {c});
    hide SumLens;
    if c != k {
      Without(t, c, k);
      Without(t, k, c);
      SumLensRemove(t - {c}, k);
      SumLensRemove(t - {k}, c);
    }
  }

  lemma {:induction false} Without(t: Tree, c: Key, k: Key)
    requires c in t && k in t && c != k
    ensures (t - {c}).Keys == t.Keys - {c} && k in t - {c} && (t - {c})[k] == t[k]
    ensures t - {c} - {k} == t - {k} - {c}
  {
  }

  lemma SumLensInsert(t: Tree, k: Key, v: Payload)
    requires k !in t
    ensures SumLens(t[k := v]) == |v| + SumLens(t)
  {
    SumLensRemove(t[k := v], k);
    assert t[k := v] - {k} == t;
  }

  lemma {:induction false} SumLensMinus(t: Tree, ks: set<Key>)
    ensures SumLens(t - ks) <= SumLens(t)
    decreases |ks|
  {
    hide SumLens;
    if k :| k in ks && k in t {
      SumLensRemove(t, k);
      SumLensMinus(t - {k}, ks - {k});
      assert t - {k} - (ks - {k}) == t - ks;
    } else {
      assert t - ks == t;
    }
  }

  lemma SumLensEmpty()
    ensures SumLens(map[]) == 0
  {
  }
}
