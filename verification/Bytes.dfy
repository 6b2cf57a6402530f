/** Byte strings, their lexicographic order, and the fixed-width big-endian codec.
    Every ordered tree of the repository is keyed by byte strings and iterated in this order. */
module Bytes {
  import opened Sorting

  type byte = x: int | 0 <= x < 256
  type u64 = x: int | 0 <= x < 0x1_0000_0000_0000_0000
  type Key = seq<byte>

  const U64_MAX: u64 := 0xFFFF_FFFF_FFFF_FFFF

  // ---- lexicographic order ----

  predicate Lt(a: Key, b: Key)
    decreases |a|
  {
    b != [] && (a == [] || a[0] < b[0] || (a[0] == b[0] && Lt(a[1..], b[1..])))
  }

  predicate Le(a: Key, b: Key) {
    a == b || Lt(a, b)
  }

  lemma {:induction false} LtIrreflexive(a: Key)
    ensures !Lt(a, a)
    decreases |a|
  {
    if a != [] {
      LtIrreflexive(a[1..]);
    }
  }

  lemma {:induction false} LtTransitive(a: Key, b: Key, c: Key)
    requires Lt(a, b) && Lt(b, c)
    ensures Lt(a, c)
    decreases |a|
  {
    if a != [] && a[0] == b[0] == c[0] {
      LtTransitive(a[1..], b[1..], c[1..]);
    }
  }

  lemma {:induction false} LtTotal(a: Key, b: Key)
    ensures a == b || Lt(a, b) || Lt(b, a)
    ensures !(Lt(a, b) && Lt(b, a))
    decreases |a|
  {
    if a != [] && b != [] {
      LtTotal(a[1..], b[1..]);
      if a[0] == b[0] && a[1..] == b[1..] {
        assert a == [a[0]] + a[1..] == [b[0]] + b[1..] == b;
      }
    }
  }

  /** A common prefix does not influence the order. */
  lemma {:induction false} LtSamePrefix(p: Key, a: Key, b: Key)
    ensures Lt(p + a, p + b) <==> Lt(a, b)
    decreases |p|
  {
    if p == [] {
      assert p + a == a && p + b == b;
    } else {
      assert (p + a)[1..] == p[1..] + a;
      assert (p + b)[1..] == p[1..] + b;
      LtSamePrefix(p[1..], a, b);
    }
  }

  lemma {:induction false} LtProperPrefix(p: Key, rest: Key)
    requires rest != []
    ensures Lt(p, p + rest)
  {
    LtSamePrefix(p, [], rest);
    assert p + [] == p;
  }

  lemma {:induction false} LtFirst(p: Key, a: Key, b: Key)
    requires a != [] && b != [] && a[0] < b[0]
    ensures Lt(p + a, p + b)
  {
    LtSamePrefix(p, a, b);
  }

  ghost predicate FirstDifference(a: Key, b: Key, i: nat) {
    i < |a| && i < |b| && a[..i] == b[..i] && a[i] < b[i]
  }

  lemma FirstStays(a: Key, i: nat)
    requires 0 < |a| && i <= |a|
    ensures i > 0 ==> a[..i] != [] && a[..i][0] == a[0]
  {
  }

  /** The order in full: one string is a proper beginning of the other, or the first byte in which they differ
      is the smaller one. */
  lemma {:induction false} LtIff(a: Key, b: Key)
    ensures Lt(a, b) <==> (a <= b && a != b) || exists i: nat :: FirstDifference(a, b, i)
    decreases |a|
  {
    if a != [] && b != [] && a[0] == b[0] {
      LtIff(a[1..], b[1..]);
      var x, y := a[1..], b[1..];
      assert a == [a[0]] + x && b == [b[0]] + y;
      if i: nat :| FirstDifference(x, y, i) {
        assert a[..i + 1] == [a[0]] + x[..i] && b[..i + 1] == [b[0]] + y[..i];
        assert FirstDifference(a, b, i + 1);
      }
      if i: nat :| FirstDifference(a, b, i) {
        assert i > 0;
        assert a[..i][1..] == b[..i][1..];
        assert a[1..i] == a[..i][1..] && b[1..i] == b[..i][1..];
        assert x[..i - 1] == a[1..i] && y[..i - 1] == b[1..i];
        assert FirstDifference(x, y, i - 1);
      }
    } else if a != [] && b != [] && a[0] < b[0] {
      assert FirstDifference(a, b, 0);
    } else if a != [] && b != [] {
      forall i: nat | FirstDifference(a, b, i)
        ensures i == 0
      {
        FirstStays(a, i);
        FirstStays(b, i);
      }
    }
  }

  /** The keys that start with one prefix form an interval of the byte order. */
  lemma {:induction false} PrefixIsInterval(p: Key, a: Key, b: Key, c: Key)
    requires p <= a && p <= c
    requires Le(a, b) && Le(b, c)
    ensures p <= b
    decreases |p|
  {
    if p != [] && a != b && b != c {
      assert a[0] == p[0] == c[0];
      assert b != [] && b[0] == p[0];
      assert p[1..] <= a[1..] && p[1..] <= c[1..];
      PrefixIsInterval(p[1..], a[1..], b[1..], c[1..]);
      assert b == [b[0]] + b[1..];
    }
  }

  /** Between strings of one length the order can be read off from the last byte inwards. */
  lemma {:induction false} LtAtLast(a: Key, x: byte, b: Key, y: byte)
    requires |a| == |b|
    ensures Lt(a + [x], b + [y]) <==> Lt(a, b) || (a == b && x < y)
    decreases |a|
  {
    if a == [] {
      assert a + [x] == [x] && b + [y] == [y];
      assert [x][1..] == [] && [y][1..] == [];
    } else {
      assert (a + [x])[1..] == a[1..] + [x];
      assert (b + [y])[1..] == b[1..] + [y];
      LtAtLast(a[1..], x, b[1..], y);
      if a[0] == b[0] && a[1..] == b[1..] {
        assert a == [a[0]] + a[1..] == [b[0]] + b[1..] == b;
      }
    }
  }

  // ---- big-endian codec ----

  function Pow256(w: nat): (p: int)
    ensures p >= 1
  {
    if w == 0 then 1 else 256 * Pow256(w - 1)
  }

  function Be(n: int, w: nat): (r: Key)
    requires 0 <= n < Pow256(w)
    ensures |r| == w
    decreases w
  {
    if w == 0 then [] else Be(n / 256, w - 1) + [n % 256]
  }

  function FromBe(b: Key): (n: int)
    ensures 0 <= n < Pow256(|b|)
    decreases |b|
  {
    if b == [] then 0 else FromBe(b[..|b| - 1]) * 256 + b[|b| - 1]
  }

  lemma {:induction false} BeRoundTrip(n: int, w: nat)
    requires 0 <= n < Pow256(w)
    ensures FromBe(Be(n, w)) == n
    decreases w
  {
    if w != 0 {
      BeRoundTrip(n / 256, w - 1);
      var r := Be(n, w);
      assert r[..|r| - 1] == Be(n / 256, w - 1);
    }
  }

  lemma {:induction false} FromBeRoundTrip(b: Key)
    ensures Be(FromBe(b), |b|) == b
    decreases |b|
  {
    if b != [] {
      var front, last := b[..|b| - 1], b[|b| - 1];
      FromBeRoundTrip(front);
      DivMod256(FromBe(front), last);
      assert b == front + [last];
    }
  }

  lemma DivMod256(n: nat, r: byte)
    ensures (n * 256 + r) / 256 == n && (n * 256 + r) % 256 == r
  {
  }

  lemma {:induction false} FromBeOrder(a: Key, b: Key)
    requires |a| == |b|
    ensures Lt(a, b) <==> FromBe(a) < FromBe(b)
    decreases |a|
  {
    if a != [] {
      var fa, x, fb, y := a[..|a| - 1], a[|a| - 1], b[..|b| - 1], b[|b| - 1];
      assert a == fa + [x] && b == fb + [y];
      LtAtLast(fa, x, fb, y);
      FromBeOrder(fa, fb);
      FromBeOrder(fb, fa);
      LtTotal(fa, fb);
    }
  }

  lemma Pow256Of8()
    ensures Pow256(8) == 0x1_0000_0000_0000_0000
  {
    assert Pow256(2) == 0x1_0000;
    assert Pow256(4) == 0x1_0000_0000;
    assert Pow256(6) == 0x1_0000_0000_0000;
  }

  /** `to_be_bytes` of a u64. */
  function Be64(n: u64): (r: Key)
    ensures |r| == 8
  {
    Pow256Of8();
    Be(n, 8)
  }

  /** `from_be_bytes` of eight bytes. */
  function FromBe64(b: Key): (n: u64)
    requires |b| == 8
  {
    Pow256Of8();
    FromBe(b)
  }

  /** The eight-byte keys are one-to-one with the u64 numbers, in both directions. */
  lemma Be64Bijective(n: u64, b: Key)
    requires |b| == 8
    ensures FromBe64(Be64(n)) == n
    ensures Be64(FromBe64(b)) == b
  {
    Pow256Of8();
    BeRoundTrip(n, 8);
    FromBeRoundTrip(b);
  }

  /** Byte order of the encodings is the numeric order. */
  lemma Be64Order(m: u64, n: u64)
    ensures Lt(Be64(m), Be64(n)) <==> m < n
    ensures Be64(m) == Be64(n) <==> m == n
  {
    Be64Bijective(m, Be64(m));
    Be64Bijective(n, Be64(n));
    FromBeOrder(Be64(m), Be64(n));
  }

  // ---- ordered listing of a key set ----

  ghost predicate StrictlyAscending(s: seq<Key>) {
    forall i, j :: 0 <= i < j < |s| ==> Lt(s[i], s[j])
  }

  predicate IsLeast(k: Key, s: set<Key>) {
    k in s && forall x | x in s :: Le(k, x)
  }

  lemma {:induction false} LeastOfBoth(a: Key, k: Key, s: set<Key>)
    requires a in s && IsLeast(k, s - {a})
    ensures IsLeast(if Lt(a, k) then a else k, s)
  {
    LtTotal(a, k);
    forall x | x in s
      ensures Le(if Lt(a, k) then a else k, x)
    {
      if x != a && k != x && Lt(a, k) {
        assert x in s - {a};
        LtTransitive(a, k, x);
      }
    }
  }

  lemma {:induction false} LeastExists(s: set<Key>)
    requires s != {}
    ensures exists k :: IsLeast(k, s)
    decreases |s|
  {
    var a :| a in s;
    if s == {a} {
      assert IsLeast(a, s);
    } else {
      assert s - {a} != {};
      LeastExists(s - {a});
      var k :| IsLeast(k, s - {a});
      LeastOfBoth(a, k, s);
    }
  }

  function Least(s: set<Key>): (k: Key)
    requires s != {}
    ensures k in s
    ensures forall x :: x in s ==> Le(k, x)
  {
    LeastExists(s);
    assert forall a, b | IsLeast(a, s) && IsLeast(b, s) :: a == b by {
      forall a, b | IsLeast(a, s) && IsLeast(b, s)
        ensures a == b
      {
        LtTotal(a, b);
      }
    }
    var k :| k in s && IsLeast(k, s);
    k
  }

  /** The keys of a tree in the order its iterator yields them. */
  function Ascending(s: set<Key>): (r: seq<Key>)
    ensures StrictlyAscending(r)
    ensures forall k :: k in r <==> k in s
    ensures |r| == |s|
    decreases |s|
  {
    if s == {} then []
    else
      var k := Least(s);
      var rest := Ascending(s - {k});
      assert forall i | 0 <= i < |rest| :: rest[i] in s - {k} by {
        forall i | 0 <= i < |rest|
          ensures rest[i] in s - {k}
        {
          assert rest[i] in rest;
        }
      }
      [k] + rest
  }

  /** An ascending listing is determined by its elements. */
  lemma AscendingUnique(a: seq<Key>, b: seq<Key>)
    requires StrictlyAscending(a) && StrictlyAscending(b)
    requires forall k :: k in a <==> k in b
    ensures a == b
  {
    hide Lt;
    forall x, y
      ensures !(Lt(x, y) && Lt(y, x))
    {
      LtTotal(x, y);
    }
    OrderedUnique(a, b, Lt);
  }

  lemma {:induction false} AscendingSnoc(s: set<Key>, k: Key)
    requires forall x :: x in s ==> Lt(x, k)
    ensures Ascending(s + {k}) == Ascending(s) + [k]
  {
    hide Lt;
    SnocPairwise(Ascending(s), k, Lt);
    AscendingUnique(Ascending(s + {k}), Ascending(s) + [k]);
  }

  lemma {:induction false} AscendingFirst(s: set<Key>, k: Key)
    requires forall x :: x in s ==> Lt(k, x)
    ensures Ascending(s + {k}) == [k] + Ascending(s)
  {
    hide Lt;
    ConsPairwise(k, Ascending(s), Lt);
    AscendingUnique(Ascending(s + {k}), [k] + Ascending(s));
  }

  function In(ids: set<Key>): Key -> bool {
    (k: Key) => k in ids
  }

  /** The listing of part of a set is the rest of the listing of the whole. */
  lemma {:induction false} AscendingPart(all: set<Key>, ids: set<Key>)
    requires ids <= all
    ensures Ascending(ids) == Filter(Ascending(all), In(ids))
  {
    hide Ascending, Filter, Lt;
    var keys := Ascending(all);
    FilterPairwise(keys, In(ids), Lt);
    FilterContents(keys, In(ids));
    AscendingUnique(Filter(keys, In(ids)), Ascending(ids));
  }
}
