/** UTF-8 validity and the lossy conversion that replaces every malformed part by U+FFFD.
    The journal turns key bytes back into cycle ids with it. */
module Utf8 {
  import opened Bytes

  /** What the decoder finds at the front of a string: one well-formed character,
      or the longest malformed part, of `len` bytes. */
  datatype Front = Front(ok: bool, len: nat)

  const REPLACEMENT: Key := [0xEF, 0xBF, 0xBD]

  predicate Continuation(b: Key, i: nat, lo: byte, hi: byte) {
    i < |b| && lo <= b[i] <= hi
  }

  /** A character of `len` bytes whose second byte lies in lo..hi. */
  function Multi(b: Key, len: nat, lo: byte, hi: byte): (f: Front)
    requires b != [] && 2 <= len <= 4
    ensures 1 <= f.len <= |b|
    ensures f.ok ==> f.len == len
  {
    if !Continuation(b, 1, lo, hi) then Front(false, 1)
    else if len == 2 then Front(true, 2)
    else if !Continuation(b, 2, 0x80, 0xBF) then Front(false, 2)
    else if len == 3 then Front(true, 3)
    else if !Continuation(b, 3, 0x80, 0xBF) then Front(false, 3)
    else Front(true, 4)
  }

  function Decode(b: Key): (f: Front)
    requires b != []
    ensures 1 <= f.len <= |b|
  {
    var h := b[0];
    if h < 0x80 then Front(true, 1)
    else if 0xC2 <= h <= 0xDF then Multi(b, 2, 0x80, 0xBF)
    else if h == 0xE0 then Multi(b, 3, 0xA0, 0xBF)
    else if h == 0xED then Multi(b, 3, 0x80, 0x9F)
    else if 0xE1 <= h <= 0xEF then Multi(b, 3, 0x80, 0xBF)
    else if h == 0xF0 then Multi(b, 4, 0x90, 0xBF)
    else if 0xF1 <= h <= 0xF3 then Multi(b, 4, 0x80, 0xBF)
    else if h == 0xF4 then Multi(b, 4, 0x80, 0x8F)
    else Front(false, 1)
  }

  predicate Valid(b: Key)
    decreases |b|
  {
    b == [] || (Decode(b).ok && Valid(b[Decode(b).len..]))
  }

  function Lossy(b: Key): (r: Key)
    decreases |b|
  {
    if b == [] then [] else
      var f := Decode(b);
      (if f.ok then b[..f.len] else REPLACEMENT) + Lossy(b[f.len..])
  }

  /** A well-formed character stays what it is when more bytes follow. */
  lemma DecodeExtends(a: Key, b: Key)
    requires a != [] && Decode(a).ok
    ensures Decode(a + b) == Decode(a)
  {
    assert forall i | 0 <= i < |a| :: (a + b)[i] == a[i];
  }

  lemma {:induction false} ValidConcat(a: Key, b: Key)
    requires Valid(a)
    ensures Valid(a + b) <==> Valid(b)
    decreases |a|
  {
    hide Decode;
    if a == [] {
      assert a + b == b;
    } else {
      DecodeExtends(a, b);
      var n := Decode(a).len;
      ValidConcat(a[n..], b);
      assert (a + b)[n..] == a[n..] + b;
    }
  }

  lemma {:induction false} LossyConcat(a: Key, b: Key)
    requires Valid(a)
    ensures Lossy(a + b) == a + Lossy(b)
    decreases |a|
  {
    hide Decode;
    if a == [] {
      assert a + b == b;
      assert a + Lossy(b) == Lossy(b);
    } else {
      DecodeExtends(a, b);
      var n := Decode(a).len;
      LossyConcat(a[n..], b);
      assert (a + b)[n..] == a[n..] + b;
      assert (a + b)[..n] == a[..n];
      assert a[..n] + (a[n..] + Lossy(b)) == a + Lossy(b);
    }
  }

  lemma {:induction false} LossyIsValid(b: Key)
    ensures Valid(Lossy(b))
    decreases |b|
  {
    if b != [] {
      var f := Decode(b);
      LossyIsValid(b[f.len..]);
      var front := if f.ok then b[..f.len] else REPLACEMENT;
      assert Valid(front) by {
        if f.ok {
          assert Decode(front) == f;
          assert front[f.len..] == [];
        } else {
          assert front[3..] == [];
        }
      }
      ValidConcat(front, Lossy(b[f.len..]));
    }
  }

  /** The conversion is the identity exactly on the well-formed strings. */
  lemma {:induction false} LossyIdentityIffValid(b: Key)
    ensures Lossy(b) == b <==> Valid(b)
  {
    LossyIsValid(b);
    if Valid(b) {
      LossyConcat(b, []);
      assert b + [] == b;
    }
  }

  /** Replacement never shortens a string: a malformed part has at most three bytes. */
  lemma {:induction false} LossyNotShorter(b: Key)
    ensures |Lossy(b)| >= |b|
    decreases |b|
  {
    if b != [] {
      MalformedAtMostThree(b);
      hide Decode;
      LossyNotShorter(b[Decode(b).len..]);
    }
  }

  lemma MalformedAtMostThree(b: Key)
    requires b != []
    ensures !Decode(b).ok ==> Decode(b).len <= 3
  {
  }

  /** A leading ASCII byte of the result was there before the conversion. */
  lemma {:induction false} LossyAsciiHead(b: Key)
    requires Lossy(b) != [] && Lossy(b)[0] < 0x80
    ensures b != [] && b[0] == Lossy(b)[0] && Lossy(b)[1..] == Lossy(b[1..])
  {
    assert b != [];
    if b[0] < 0x80 {
      assert Decode(b) == Front(true, 1);
      assert Lossy(b) == [b[0]] + Lossy(b[1..]);
    }
  }

  predicate MarkAt(b: Key, i: int) {
    0 <= i <= |b| - 3 && b[i] == 0xEF && b[i + 1] == 0xBF && b[i + 2] == 0xBD
  }

  ghost predicate HasReplacement(b: Key) {
    exists i :: MarkAt(b, i)
  }

  /** A malformed string leaves its mark. */
  lemma {:induction false} LossyMarksMalformed(b: Key)
    requires !Valid(b)
    ensures HasReplacement(Lossy(b))
    decreases |b|
  {
    hide Decode;
    var f := Decode(b);
    if f.ok {
      LossyMarksMalformed(b[f.len..]);
      var i :| MarkAt(Lossy(b[f.len..]), i);
      assert MarkAt(Lossy(b), f.len + i);
    } else {
      assert MarkAt(Lossy(b), 0);
    }
  }
}
