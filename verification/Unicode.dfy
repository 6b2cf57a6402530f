/** UTF-8 as the encoding of the Unicode scalar values, against which the decoder is judged. */
module Unicode {
  import opened Bytes
  import opened Utf8

  /** Every code point but the surrogates. */
  predicate Scalar(c: int) {
    0 <= c < 0xD800 || 0xE000 <= c <= 0x10FFFF
  }

  /** The encoding form of section 3.9 of the Unicode Standard. */
  function Encode(c: int): Key
    requires Scalar(c)
  {
    if c < 0x80 then [c]
    else if c < 0x800 then [0xC0 + c / 0x40, 0x80 + c % 0x40]
    else if c < 0x1_0000 then [0xE0 + c / 0x1000, 0x80 + c / 0x40 % 0x40, 0x80 + c % 0x40]
    else [0xF0 + c / 0x4_0000, 0x80 + c / 0x1000 % 0x40, 0x80 + c / 0x40 % 0x40, 0x80 + c % 0x40]
  }

  function EncodeAll(cs: seq<int>): Key
    requires forall i :: 0 <= i < |cs| ==> Scalar(cs[i])
  {
    if cs == [] then [] else Encode(cs[0]) + EncodeAll(cs[1..])
  }

  /** The encoding of a character begins like this. */
  ghost predicate Begins(p: Key) {
    exists c :: Scalar(c) && p <= Encode(c)
  }

  lemma EncodeDecodes(c: int, rest: Key)
    requires Scalar(c)
    ensures Decode(Encode(c) + rest) == Front(true, |Encode(c)|)
  {
    EncodeAlone(c);
    DecodeExtends(Encode(c), rest);
  }

  lemma EncodeAlone(c: int)
    requires Scalar(c)
    ensures Encode(c) != [] && Decode(Encode(c)) == Front(true, |Encode(c)|)
  {
  }

  /** The character that the decoder has found. */
  function CodePoint(b: Key): int
    requires b != [] && Decode(b).ok
  {
    var n := Decode(b).len;
    var head: int := b[0];
    var x: int := if n >= 2 then b[1] as int - 0x80 else 0;
    var y: int := if n >= 3 then b[2] as int - 0x80 else 0;
    var z: int := if n >= 4 then b[3] as int - 0x80 else 0;
    if n == 1 then head
    else if n == 2 then (head - 0xC0) * 0x40 + x
    else if n == 3 then (head - 0xE0) * 0x1000 + x * 0x40 + y
    else (head - 0xF0) * 0x4_0000 + x * 0x1000 + y * 0x40 + z
  }

  lemma Digit(q: int, r: int)
    requires 0 <= q && 0 <= r < 0x40
    ensures (q * 0x40 + r) / 0x40 == q && (q * 0x40 + r) % 0x40 == r
  {
  }

  lemma Digits(w: int, x: int, y: int, z: int)
    requires 0 <= w && 0 <= x < 0x40 && 0 <= y < 0x40 && 0 <= z < 0x40
    ensures var c := w * 0x4_0000 + x * 0x1000 + y * 0x40 + z;
            && c / 0x4_0000 == w && c / 0x1000 % 0x40 == x && c / 0x40 % 0x40 == y && c % 0x40 == z
            && c / 0x1000 == w * 0x40 + x && c / 0x40 == w * 0x1000 + x * 0x40 + y
  {
    var a, b := w * 0x40 + x, (w * 0x40 + x) * 0x40 + y;
    var c := w * 0x4_0000 + x * 0x1000 + y * 0x40 + z;
    assert c == b * 0x40 + z;
    Digit(b, z);
    Digit(a, y);
    Digit(w, x);
    Halves(c);
  }

  lemma Halves(c: int)
    ensures c / 0x1000 == c / 0x40 / 0x40 && c / 0x4_0000 == c / 0x1000 / 0x40
  {
  }

  lemma DecodeEncodes(b: Key)
    requires b != [] && Decode(b).ok
    ensures Scalar(CodePoint(b)) && Encode(CodePoint(b)) == b[..Decode(b).len]
  {
    var n := Decode(b).len;
    match n {
      case 1 =>
      case 2 => Digits(0, 0, b[0] as int - 0xC0, b[1] as int - 0x80);
      case 3 => ThreeBytes(b);
      case _ => FourBytes(b);
    }
  }

  lemma ThreeBytes(b: Key)
    requires b != [] && Decode(b) == Front(true, 3)
    ensures Scalar(CodePoint(b)) && Encode(CodePoint(b)) == b[..3]
  {
    Digits(0, b[0] as int - 0xE0, b[1] as int - 0x80, b[2] as int - 0x80);
  }

  lemma FourBytes(b: Key)
    requires b != [] && Decode(b) == Front(true, 4)
    ensures Scalar(CodePoint(b)) && Encode(CodePoint(b)) == b[..4]
  {
    Digits(b[0] as int - 0xF0, b[1] as int - 0x80, b[2] as int - 0x80, b[3] as int - 0x80);
  }

  /** A string is well-formed if and only if it encodes scalar values. */
  lemma {:induction false} ValidIff(b: Key)
    ensures Valid(b) <==>
              exists cs: seq<int> :: (forall i :: 0 <= i < |cs| ==> Scalar(cs[i])) && EncodeAll(cs) == b
  {
    if Valid(b) {
      var cs := CodePoints(b);
    }
    if cs: seq<int> :| (forall i :: 0 <= i < |cs| ==> Scalar(cs[i])) && EncodeAll(cs) == b {
      EncodedIsValid(cs);
    }
  }

  lemma {:induction false} CodePoints(b: Key) returns (cs: seq<int>)
    requires Valid(b)
    ensures (forall i :: 0 <= i < |cs| ==> Scalar(cs[i])) && EncodeAll(cs) == b
    decreases |b|
  {
    hide Decode, Encode, Scalar;
    cs := [];
    if b != [] {
      DecodeEncodes(b);
      var n := Decode(b).len;
      var rest := CodePoints(b[n..]);
      cs := [CodePoint(b)] + rest;
      assert cs[1..] == rest && b == b[..n] + b[n..];
    }
  }

  lemma {:induction false} EncodedIsValid(cs: seq<int>)
    requires forall i :: 0 <= i < |cs| ==> Scalar(cs[i])
    ensures Valid(EncodeAll(cs))
    decreases |cs|
  {
    if cs != [] {
      hide Decode, Scalar;
      var e, rest := Encode(cs[0]), EncodeAll(cs[1..]);
      EncodeDecodes(cs[0], rest);
      EncodedIsValid(cs[1..]);
      assert (e + rest)[|e|..] == rest;
    }
  }

  /** As many bytes as could still become a character, or one byte. */
  ghost predicate IsMalformedPart(b: Key, n: nat) {
    && 1 <= n <= |b|
    && (n == 1 || Begins(b[..n]))
    && (n < |b| ==> !Begins(b[..n + 1]))
    && (n == |b| ==> forall c :: Scalar(c) ==> Encode(c) != b)
  }

  /** The decoder decides by the bytes it has looked at. */
  lemma DecodeLooksAt(b: Key, e: Key)
    requires b != [] && !Decode(b).ok && Decode(b).len < |b| && b[..Decode(b).len + 1] <= e
    ensures Decode(e) == Decode(b)
  {
    var n := Decode(b).len;
    assert forall i :: 0 <= i <= n ==> e[i] == b[..n + 1][i] == b[i];
  }

  lemma {:induction false} BeginsOrNot(b: Key)
    requires b != [] && !Decode(b).ok
    ensures IsMalformedPart(b, Decode(b).len)
  {
    hide Encode, Scalar;
    var n := Decode(b).len;
    if n < |b| {
      forall c | Scalar(c)
        ensures !(b[..n + 1] <= Encode(c))
      {
        EncodeDecodes(c, []);
        assert Encode(c) + [] == Encode(c);
        if b[..n + 1] <= Encode(c) {
          DecodeLooksAt(b, Encode(c));
        }
      }
    }
    forall c | Scalar(c)
      ensures Encode(c) != b
    {
      EncodeDecodes(c, []);
      assert Encode(c) + [] == Encode(c);
    }
    if n > 1 {
      var e := Completed(b);
      DecodeEncodes(e);
      assert b[..n] <= Encode(CodePoint(e));
    }
  }

  /** A truncated character, filled up. */
  lemma Completed(b: Key) returns (e: Key)
    requires b != [] && !Decode(b).ok && Decode(b).len > 1
    ensures e != [] && Decode(e).ok && Decode(e).len == |e| && b[..Decode(b).len] <= e
  {
    var n := Decode(b).len;
    var size := if b[0] >= 0xF0 then 4 else 3;
    e := b[..n] + if size - n == 1 then [0x80] else [0x80, 0x80];
    assert forall i :: 0 <= i < n ==> e[i] == b[i];
  }

  /** Lossy conversion, character by character: what encodes a scalar value is kept; else the longest beginning
      that could still have become one, or a single byte, gives way to U+FFFD. */
  lemma {:induction false} LossyStep(b: Key)
    requires b != []
    ensures forall c :: Scalar(c) && Encode(c) <= b ==> Lossy(b) == Encode(c) + Lossy(b[|Encode(c)|..])
    ensures (forall c :: Scalar(c) ==> !(Encode(c) <= b)) ==>
              exists n: nat :: IsMalformedPart(b, n) && Lossy(b) == [0xEF, 0xBF, 0xBD] + Lossy(b[n..])
  {
    hide Decode, Encode, Scalar;
    forall c | Scalar(c) && Encode(c) <= b
      ensures Decode(b) == Front(true, |Encode(c)|) && b[..|Encode(c)|] == Encode(c)
    {
      EncodeDecodes(c, b[|Encode(c)|..]);
      assert Encode(c) + b[|Encode(c)|..] == b;
    }
    if Decode(b).ok {
      DecodeEncodes(b);
    } else {
      BeginsOrNot(b);
    }
  }
}
