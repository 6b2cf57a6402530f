/** Lists of writes on a disk of any kind, and the part of a list that a stop lets through. */
module Writes {
  function ApplyAll<D, W>(d: D, ws: seq<W>, apply: (D, W) -> D): D
    decreases |ws|
  {
    if ws == [] then d else ApplyAll(apply(d, ws[0]), ws[1..], apply)
  }

  function Prefix<W>(ws: seq<W>, cut: nat): seq<W> {
    if cut < |ws| then ws[..cut] else ws
  }

  lemma {:induction false} PrefixOfConcat<W>(ws: seq<W>, more: seq<W>, cut: nat)
    ensures Prefix(ws + more, cut) == if cut < |ws| then Prefix(ws, cut) else ws + Prefix(more, cut - |ws|)
    ensures cut >= |ws| ==> Prefix(ws, cut) == ws
    ensures cut == |ws| ==> Prefix(ws + more, cut) == ws
  {
  }

  lemma {:induction false} ApplyAllConcat<D, W>(d: D, a: seq<W>, b: seq<W>, apply: (D, W) -> D)
    ensures ApplyAll(d, a + b, apply) == ApplyAll(ApplyAll(d, a, apply), b, apply)
    decreases |a|
  {
    if a == [] {
      assert a + b == b;
    } else {
      assert (a + b)[1..] == a[1..] + b;
      ApplyAllConcat(apply(d, a[0]), a[1..], b, apply);
    }
  }

  lemma {:induction false} ApplyOne<D, W>(d: D, w: W, apply: (D, W) -> D)
    ensures ApplyAll(d, [w], apply) == apply(d, w)
    ensures ApplyAll(d, [], apply) == d
  {
    assert [w][1..] == [];
  }

  lemma {:induction false} ApplyNone<D, W>(d: D, apply: (D, W) -> D)
    ensures ApplyAll(d, [], apply) == d
  {
  }

  lemma {:induction false} ApplyTwo<D, W>(d: D, v: W, w: W, apply: (D, W) -> D)
    ensures ApplyAll(d, [v, w], apply) == apply(apply(d, v), w)
  {
    assert [v, w] == [v] + [w];
    ApplyAllConcat(d, [v], [w], apply);
    ApplyOne(d, v, apply);
    ApplyOne(apply(d, v), w, apply);
  }

  /** The disk after each prefix of a list of two writes. */
  lemma {:induction false} PrefixTwo<D, W>(d: D, v: W, w: W, cut: nat, apply: (D, W) -> D)
    ensures ApplyAll(d, Prefix([v, w], cut), apply) ==
            if cut == 0 then d else if cut == 1 then apply(d, v) else apply(apply(d, v), w)
  {
    ApplyOne(d, v, apply);
    ApplyTwo(d, v, w, apply);
    assert [v, w][..1] == [v] && [v, w][..0] == [];
  }

  lemma {:induction false} PrefixThree<D, W>(d: D, u: W, v: W, w: W, cut: nat, apply: (D, W) -> D)
    ensures ApplyAll(d, Prefix([u, v, w], cut), apply) ==
            if cut == 0 then d else if cut == 1 then apply(d, u) else if cut == 2 then apply(apply(d, u), v)
            else apply(apply(apply(d, u), v), w)
  {
    ApplyOne(d, u, apply);
    ApplyTwo(d, u, v, apply);
    ApplyAllConcat(d, [u, v], [w], apply);
    ApplyOne(apply(apply(d, u), v), w, apply);
    assert [u, v] + [w] == [u, v, w];
    assert [u, v, w][..1] == [u] && [u, v, w][..2] == [u, v] && [u, v, w][..0] == [];
  }
}
