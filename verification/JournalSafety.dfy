/** Safety of the journal over every run, with a stop allowed between any two writes. */
module JournalSafety {
  import opened Bytes
  import opened JournalDisk
  import opened Trees
  import Sorting
  import opened Writes

  // ---- keys ----

  /** The sequence number always fills the last eight bytes, so a key names one entry whatever the id. */
  lemma PendingKeyParts(id: Key, s: u64)
    ensures IsEntryKey(PendingKey(id, s))
    ensures KeyId(PendingKey(id, s)) == id && KeySeq(PendingKey(id, s)) == s
    ensures PendingKey(id, s) != TOTAL_KEY
  {
    var k := PendingKey(id, s);
    assert k[|k| - 9] == COLON;
    assert k[|k| - 8..] == Be64(s);
    Be64Bijective(s, Be64(s));
    if |k| == |TOTAL_KEY| {
      assert TOTAL_KEY[4] != COLON;
    }
  }

  lemma PendingKeyOfParts(k: Key)
    requires IsEntryKey(k)
    ensures k == PendingKey(KeyId(k), KeySeq(k))
    ensures CyclePrefix(KeyId(k)) <= k
  {
    Be64Bijective(0, k[|k| - 8..]);
    assert k == k[..|k| - 9] + [k[|k| - 9]] + k[|k| - 8..];
  }

  lemma PendingKeyInjective(id1: Key, s1: u64, id2: Key, s2: u64)
    ensures PendingKey(id1, s1) == PendingKey(id2, s2) <==> id1 == id2 && s1 == s2
  {
    PendingKeyParts(id1, s1);
    PendingKeyParts(id2, s2);
  }

  lemma PrefixSkipsTotal(id: Key)
    ensures !(CyclePrefix(id) <= TOTAL_KEY)
  {
    assert forall i :: 0 <= i < |TOTAL_KEY| ==> TOTAL_KEY[i] != COLON;
    assert CyclePrefix(id)[|id|] == COLON;
    assert |TOTAL_KEY| <= |id| || TOTAL_KEY[|id|] != CyclePrefix(id)[|id|];
  }

  // ---- the entries ----

  ghost function Entries(d: Disk): Tree {
    d.pending - {TOTAL_KEY}
  }

  ghost function Sum(d: Disk): nat {
    SumLens(Entries(d))
  }

  // ---- the invariant ----

  ghost predicate WellKeyed(d: Disk) {
    forall k :: k in Entries(d) ==> IsEntryKey(k)
  }

  /** Sequence numbers handed out next are above those in use. */
  ghost predicate Fresh(d: Disk)
    requires WellKeyed(d)
  {
    forall k :: k in Entries(d) ==> KeySeq(k) < Next(d, KeyId(k))
  }

  /** An acknowledged cycle has no pending entry. */
  ghost predicate AckedClear(d: Disk)
    requires WellKeyed(d)
  {
    forall k :: k in Entries(d) ==> KeyId(k) !in d.acked
  }

  ghost predicate Safe(d: Disk) {
    && WellKeyed(d)
    && Fresh(d)
    && AckedClear(d)
    && Recorded(d) < I64_LIMIT
    && Recorded(d) <= Sum(d)
  }

  ghost predicate Exact(d: Disk) {
    Recorded(d) == Sum(d)
  }

  /** The counter has gone down with the pending bytes, but never below zero. */
  ghost predicate Lowered(d: Disk, d': Disk) {
    var freed := Sum(d) - Sum(d');
    freed >= 0 && Recorded(d') == if Recorded(d) >= freed then Recorded(d) - freed else 0
  }

  lemma AddTotalEffect(d: Disk, delta: i64)
    requires Recorded(d) < I64_LIMIT
    ensures var d' := Apply(d, AddTotal(d, delta));
            && Entries(d') == Entries(d) && d'.seqs == d.seqs && d'.acked == d.acked && d'.completed == d.completed
            && Recorded(d') < I64_LIMIT
            && (0 <= Recorded(d) + delta < I64_LIMIT ==> Recorded(d') == Recorded(d) + delta)
            && (!(0 <= Recorded(d) + delta < I64_LIMIT) ==> Recorded(d') == 0)
  {
    var n := NewTotal(Recorded(d), delta);
    Be64Bijective(n, Be64(n));
    assert Be64(n)[..8] == Be64(n);
  }

  // ---- one deletion pass ----

  ghost predicate DropList(d: Disk, keys: seq<Key>) {
    && (forall i :: 0 <= i < |keys| ==> keys[i] in Entries(d))
    && (forall i, j :: 0 <= i < j < |keys| ==> keys[i] != keys[j])
  }

  /** The two writes that free one entry: the counter first, then the entry. */
  lemma DropOne(d: Disk, k: Key)
    requires Safe(d) && k in Entries(d)
    ensures var d1 := Apply(d, AddTotal(d, -|d.pending[k]|));
            var d2 := Apply(d1, DelPending(k));
            && Safe(d1) && Safe(d2)
            && Entries(d1) == Entries(d) && Entries(d2) == Entries(d) - {k}
            && d1.seqs == d2.seqs == d.seqs && d1.acked == d2.acked == d.acked
            && d1.completed == d2.completed == d.completed
            && (Exact(d) ==> Exact(d2)) && Lowered(d, d2)
  {
    hide Be64, FromBe64, SumLens;
    var n := |d.pending[k]|;
    AddTotalEffect(d, -n);
    var d1 := Apply(d, AddTotal(d, -n));
    var d2 := Apply(d1, DelPending(k));
    assert Entries(d2) == Entries(d) - {k};
    SumLensRemove(Entries(d), k);
    assert Recorded(d2) == Recorded(d1);
    assert Sum(d1) == Sum(d) == n + Sum(d2);
  }

  lemma {:induction false} DropNone(d: Disk)
    ensures DropWrites(d, []) == [] && ApplyAll(d, [], Apply) == d
    ensures Shrunk(d, d, [])
  {
  }

  lemma DropHead(d: Disk, keys: seq<Key>)
    requires DropList(d, keys) && keys != []
    ensures keys[0] in Entries(d) && keys[0] in d.pending
  {
  }

  lemma DropUnfold(d: Disk, keys: seq<Key>)
    requires Safe(d) && DropList(d, keys) && keys != []
    ensures var w := AddTotal(d, -|d.pending[keys[0]]|);
            var d2 := Apply(Apply(d, w), DelPending(keys[0]));
            && DropWrites(d, keys) == [w, DelPending(keys[0])] + DropWrites(d2, keys[1..])
            && Safe(d2) && DropList(d2, keys[1..])
  {
    hide Be64, FromBe64, SumLens;
    var k := keys[0];
    var w := AddTotal(d, -|d.pending[k]|);
    assert FreeWrites(d, k) == [w, DelPending(k)];
    ApplyTwo(d, w, DelPending(k), Apply);
    DropOne(d, k);
    var d2 := Apply(Apply(d, w), DelPending(k));
    forall i | 0 <= i < |keys[1..]|
      ensures keys[1..][i] in Entries(d2)
    {
      assert keys[1..][i] == keys[i + 1];
    }
  }

  /** `d'` lies on the way of freeing `keys` from `d`. */
  ghost predicate Shrunk(d: Disk, d': Disk, keys: seq<Key>) {
    && d'.seqs == d.seqs && d'.acked == d.acked && d'.completed == d.completed
    && (forall k :: k in Entries(d') ==> k in Entries(d) && d'.pending[k] == d.pending[k])
    && (forall k :: k in Entries(d) && k !in keys ==> k in Entries(d'))
  }

  lemma ShrunkByOne(d: Disk, k: Key, keys: seq<Key>)
    requires Safe(d) && k in Entries(d) && k in keys
    ensures var d1 := Apply(d, AddTotal(d, -|d.pending[k]|));
            Shrunk(d, d, keys) && Shrunk(d, d1, keys) && Shrunk(d, Apply(d1, DelPending(k)), keys)
  {
    hide Be64, FromBe64;
    PendingKeyOfParts(k);
    PendingKeyParts(KeyId(k), KeySeq(k));
  }

  lemma ShrunkTransitive(a: Disk, b: Disk, c: Disk, keys: seq<Key>)
    requires keys != [] && Shrunk(a, b, keys) && Shrunk(b, c, keys[1..])
    ensures Shrunk(a, c, keys)
  {
    assert forall x :: x in keys[1..] ==> x in keys;
  }

  lemma {:induction false} DropSafe(d: Disk, keys: seq<Key>, cut: nat)
    requires Safe(d) && DropList(d, keys)
    requires cut <= |DropWrites(d, keys)|
    ensures Safe(ApplyAll(d, DropWrites(d, keys)[..cut], Apply))
    ensures Shrunk(d, ApplyAll(d, DropWrites(d, keys)[..cut], Apply), keys)
    decreases |keys|
  {
    hide Be64, FromBe64, DropWrites, ApplyAll, Safe, Shrunk, Entries, DropList;
    if keys == [] {
      DropNone(d);
      assert DropWrites(d, keys)[..cut] == [];
    } else {
      DropHead(d, keys);
      var k := keys[0];
      var w := AddTotal(d, -|d.pending[k]|);
      var all := DropWrites(d, keys);
      var d2 := Apply(Apply(d, w), DelPending(k));
      DropOne(d, k);
      DropUnfold(d, keys);
      ShrunkByOne(d, k, keys);
      if cut == 0 {
        assert all[..cut] == [];
        ApplyNone(d, Apply);
      } else if cut == 1 {
        assert all[..cut] == [w];
        ApplyOne(d, w, Apply);
      } else {
        var rest := DropWrites(d2, keys[1..])[..cut - 2];
        assert all[..cut] == [w, DelPending(k)] + rest;
        ApplyTwo(d, w, DelPending(k), Apply);
        ApplyAllConcat(d, [w, DelPending(k)], rest, Apply);
        DropSafe(d2, keys[1..], cut - 2);
        ShrunkTransitive(d, d2, ApplyAll(d2, rest, Apply), keys);
      }
    }
  }

  lemma LoweredTwice(a: Disk, b: Disk, c: Disk)
    requires Lowered(a, b) && Lowered(b, c)
    ensures Lowered(a, c)
  {
    hide Sum, Recorded;
  }

  lemma LoweredAlike(d: Disk, d1: Disk, d2: Disk)
    requires Lowered(d, d1) && d2.pending == d1.pending
    ensures Lowered(d, d2)
  {
    hide SumLens, Recorded;
    assert Entries(d2) == Entries(d1);
    assert Recorded(d2) == Recorded(d1) by { SamePendingSameCounter(d1, d2); }
  }

  lemma SamePendingSameCounter(d1: Disk, d2: Disk)
    requires d2.pending == d1.pending
    ensures Recorded(d2) == Recorded(d1)
  {
  }

  lemma {:induction false} DropEffect(d: Disk, keys: seq<Key>)
    requires Safe(d) && DropList(d, keys)
    ensures var d' := ApplyAll(d, DropWrites(d, keys), Apply);
            && Entries(d') == Entries(d) - (set k | k in keys)
            && (Exact(d) ==> Exact(d')) && Lowered(d, d')
            && (keys == [] ==> d' == d)
    decreases |keys|
  {
    hide Be64, FromBe64, DropWrites, ApplyAll, Safe, Entries, DropList, Exact;
    if keys == [] {
      DropNone(d);
      assert Entries(d) - (set k | k in keys) == Entries(d);
      assert Lowered(d, d);
    } else {
      DropHead(d, keys);
      var k := keys[0];
      var w := AddTotal(d, -|d.pending[k]|);
      var d2 := Apply(Apply(d, w), DelPending(k));
      DropOne(d, k);
      DropUnfold(d, keys);
      ApplyTwo(d, w, DelPending(k), Apply);
      ApplyAllConcat(d, [w, DelPending(k)], DropWrites(d2, keys[1..]), Apply);
      DropEffect(d2, keys[1..]);
      LoweredTwice(d, d2, ApplyAll(d2, DropWrites(d2, keys[1..]), Apply));
      assert (set x | x in keys) == {k} + (set x | x in keys[1..]);
      assert Entries(d) - {k} - (set x | x in keys[1..]) == Entries(d) - (set x | x in keys);
    }
  }

  // ---- acknowledgement ----

  lemma ScanIsDropList(d: Disk, id: Key)
    ensures DropList(d, Scan(d.pending, CyclePrefix(id)))
    ensures forall k :: k in Scan(d.pending, CyclePrefix(id)) <==> k in Entries(d) && CyclePrefix(id) <= k
  {
    PrefixSkipsTotal(id);
    var keys := Scan(d.pending, CyclePrefix(id));
    forall i, j | 0 <= i < j < |keys|
      ensures keys[i] != keys[j]
    {
      LtIrreflexive(keys[i]);
    }
    assert forall i :: 0 <= i < |keys| ==> keys[i] in keys;
  }

  /** The two writes that close an acknowledgement keep the disk safe, because no entry of the cycle is left. */
  lemma MarkSafe(d: Disk, id: Key)
    requires Safe(d)
    requires forall k :: k in Entries(d) ==> !(CyclePrefix(id) <= k)
    ensures var d1 := Apply(d, PutAcked(id));
            var d2 := Apply(d1, DelCompleted(id));
            && Safe(d1) && Safe(d2) && d1.pending == d2.pending == d.pending && d1.seqs == d2.seqs == d.seqs
            && d2.acked == d.acked + {id} && d2.completed == d.completed - {id}
  {
    hide Be64, FromBe64, SumLens;
    forall k | k in Entries(d)
      ensures KeyId(k) != id
    {
      PendingKeyOfParts(k);
    }
    assert Entries(Apply(d, PutAcked(id))) == Entries(d);
  }

  /** Every prefix of the writes of an acknowledgement leaves a safe disk,
      and only keys under the cycle's prefix can be gone from it. */
  lemma {:induction false} AckSafe(d: Disk, id: Key, cut: nat)
    requires Safe(d)
    requires cut <= |AckInnerWrites(d, id)|
    ensures var d' := ApplyAll(d, AckInnerWrites(d, id)[..cut], Apply);
            && Safe(d') && d'.seqs == d.seqs
            && (forall k :: k in Entries(d') ==> k in Entries(d) && d'.pending[k] == d.pending[k])
            && (forall k :: k in Entries(d) && !(CyclePrefix(id) <= k) ==> k in Entries(d'))
  {
    hide Be64, FromBe64, SumLens, DropWrites, ApplyAll, Safe, Scan;
    ScanIsDropList(d, id);
    var keys := Scan(d.pending, CyclePrefix(id));
    var drop := DropWrites(d, keys);
    var all := AckInnerWrites(d, id);
    if cut <= |drop| {
      assert all[..cut] == drop[..cut];
      DropSafe(d, keys, cut);
    } else {
      assert drop[..|drop|] == drop;
      DropSafe(d, keys, |drop|);
      DropEffect(d, keys);
      var d1 := ApplyAll(d, drop, Apply);
      MarkSafe(d1, id);
      var tail := [PutAcked(id), DelCompleted(id)][..cut - |drop|];
      assert all[..cut] == drop + tail;
      ApplyAllConcat(d, drop, tail, Apply);
      ApplyOne(d1, PutAcked(id), Apply);
      ApplyTwo(d1, PutAcked(id), DelCompleted(id), Apply);
      assert tail == if cut == |drop| + 1 then [PutAcked(id)] else [PutAcked(id), DelCompleted(id)];
    }
  }

  /** A finished acknowledgement frees exactly the keys under the cycle's prefix. */
  lemma {:induction false} AckEffect(d: Disk, id: Key)
    requires Safe(d)
    ensures var d' := ApplyAll(d, AckInnerWrites(d, id), Apply);
            && Safe(d')
            && Entries(d') == Entries(d) - (set k | k in Entries(d) && CyclePrefix(id) <= k)
            && d'.acked == d.acked + {id} && d'.completed == d.completed - {id} && d'.seqs == d.seqs
            && (Exact(d) ==> Exact(d')) && Lowered(d, d')
            && ((forall k :: k in Entries(d) ==> !(CyclePrefix(id) <= k)) ==> d'.pending == d.pending)
  {
    hide Be64, FromBe64, SumLens, DropWrites, ApplyAll, Safe, Scan;
    ScanIsDropList(d, id);
    var keys := Scan(d.pending, CyclePrefix(id));
    var drop := DropWrites(d, keys);
    assert drop[..|drop|] == drop;
    DropSafe(d, keys, |drop|);
    DropEffect(d, keys);
    assert (set k | k in keys) == (set k | k in Entries(d) && CyclePrefix(id) <= k);
    var d1 := ApplyAll(d, drop, Apply);
    MarkSafe(d1, id);
    ApplyTwo(d1, PutAcked(id), DelCompleted(id), Apply);
    ApplyAllConcat(d, drop, [PutAcked(id), DelCompleted(id)], Apply);
    LoweredAlike(d, d1, Apply(Apply(d1, PutAcked(id)), DelCompleted(id)));
    Sorting.NonEmpty(keys);
  }

  /** A local completion mark outlasts an acknowledgement exactly when the cycle was already
      acknowledged; and acknowledging a second time writes nothing. */
  lemma {:induction false} CompletionOutlastsAckIff(d: Disk, id: Key)
    requires Safe(d)
    ensures var d' := ApplyAll(d, AckWrites(d, id), Apply);
            && (id in d'.completed <==> id in d.acked && id in d.completed)
            && AckWrites(d', id) == []
  {
    hide ApplyAll, AckInnerWrites, Safe, Entries;
    ApplyNone(d, Apply);
    AckEffect(d, id);
  }

  // ---- append ----

  ghost predicate NextAtMost(d: Disk, n: int) {
    forall id :: Next(d, id) <= n
  }

  /** The four writes of an append, one after the other. */
  ghost function Unacked(d: Disk, id: Key): Disk {
    d.(acked := d.acked - {id})
  }

  ghost function Numbered(d: Disk, id: Key): Disk {
    Apply(Unacked(d, id), PutSeq(id, Be64(Succ(Next(d, id)))))
  }

  ghost function Stowed(d: Disk, id: Key, p: Payload): Disk {
    Apply(Numbered(d, id), PutPending(PendingKey(id, Next(d, id)), p))
  }

  ghost function Appended(d: Disk, id: Key, p: Payload): Disk {
    Apply(Stowed(d, id, p), AddTotal(d, |p|))
  }

  lemma NumberedEffect(d: Disk, id: Key, n: int)
    requires Safe(d) && NextAtMost(d, n) && n + 1 < U64_LIMIT
    ensures var d1 := Unacked(d, id);
            var d2 := Numbered(d, id);
            && Safe(d1) && NextAtMost(d1, n + 1) && Entries(d1) == Entries(d)
            && Safe(d2) && NextAtMost(d2, n + 1) && Entries(d2) == Entries(d)
            && d2.pending == d.pending && Next(d2, id) == Next(d, id) + 1
  {
    hide Be64, FromBe64, SumLens;
    var s := Next(d, id);
    Be64Bijective(Succ(s), Be64(Succ(s)));
    assert Be64(Succ(s))[..8] == Be64(Succ(s));
    var d1 := Unacked(d, id);
    var d2 := Numbered(d, id);
    assert Entries(d1) == Entries(d) == Entries(d2);
    assert forall x :: Next(d2, x) == if x == id then s + 1 else Next(d, x);
    assert forall x :: Next(d1, x) == Next(d, x);
    assert Recorded(d1) == Recorded(d2) == Recorded(d);
  }

  lemma StowedEffect(d: Disk, id: Key, p: Payload, n: int)
    requires Safe(d) && NextAtMost(d, n) && n + 1 < U64_LIMIT
    ensures var k := PendingKey(id, Next(d, id));
            var d3 := Stowed(d, id, p);
            && k !in Entries(d)
            && Safe(d3) && NextAtMost(d3, n + 1)
            && Entries(d3) == Entries(d)[k := p]
            && Sum(d3) == Sum(d) + |p| && Recorded(d3) == Recorded(d)
  {
    hide Be64, FromBe64, SumLens;
    NumberedEffect(d, id, n);
    var s := Next(d, id);
    var k := PendingKey(id, s);
    PendingKeyParts(id, s);
    var d2 := Numbered(d, id);
    var d3 := Stowed(d, id, p);
    assert Entries(d3) == Entries(d)[k := p];
    SumLensInsert(Entries(d), k, p);
    assert Recorded(d3) == Recorded(d2) == Recorded(d);
    assert forall x :: Next(d3, x) == Next(d2, x);
  }

  /** A finished append adds exactly one entry, under a key that was free, and un-acknowledges the cycle. */
  lemma {:induction false} AppendEffect(d: Disk, id: Key, p: Payload, n: int)
    requires Safe(d) && NextAtMost(d, n) && n + 1 < U64_LIMIT
    ensures var k := PendingKey(id, Next(d, id));
            var d' := ApplyAll(d, AppendWrites(d, id, p), Apply);
            && d' == Appended(d, id, p)
            && k !in Entries(d)
            && Entries(d') == Entries(d)[k := p]
            && d'.acked == d.acked - {id} && d'.completed == d.completed
            && Safe(d') && NextAtMost(d', n + 1) && Next(d', id) == Next(d, id) + 1
            && Sum(d') == Sum(d) + |p|
            && (Exact(d) && Sum(d) + |p| < I64_LIMIT ==> Exact(d'))
  {
    hide Be64, FromBe64, SumLens, ApplyAll;
    NumberedEffect(d, id, n);
    StowedEffect(d, id, p, n);
    var d3 := Stowed(d, id, p);
    AddTotalEffect(d3, |p|);
    var d4 := Appended(d, id, p);
    assert forall x :: Next(d4, x) == Next(d3, x);
    assert Next(d3, id) == Next(Numbered(d, id), id);
    AppendPrefix(d, id, p, |AppendWrites(d, id, p)|);
    assert AppendWrites(d, id, p)[..|AppendWrites(d, id, p)|] == AppendWrites(d, id, p);
  }

  /** The disk after a prefix of the writes of an append. */
  lemma {:induction false} AppendPrefix(d: Disk, id: Key, p: Payload, cut: nat)
    requires cut <= |AppendWrites(d, id, p)|
    ensures var d' := ApplyAll(d, AppendWrites(d, id, p)[..cut], Apply);
            && d' in {d, Unacked(d, id), Numbered(d, id), Stowed(d, id, p), Appended(d, id, p)}
            && (cut == |AppendWrites(d, id, p)| ==> d' == Appended(d, id, p))
            && (cut == |AppendWrites(d, id, p)| - 1 ==> d' == Stowed(d, id, p))
            && (cut < |AppendWrites(d, id, p)| - 1 ==> d' in {d, Unacked(d, id), Numbered(d, id)})
  {
    hide Be64, FromBe64, ApplyAll, Next, Recorded;
    var w1 := DelAcked(id);
    var w2 := PutSeq(id, Be64(Succ(Next(d, id))));
    var w3 := PutPending(PendingKey(id, Next(d, id)), p);
    var w4 := AddTotal(d, |p|);
    var d1 := Unacked(d, id);
    var d2 := Numbered(d, id);
    var d3 := Stowed(d, id, p);
    var ws := AppendWrites(d, id, p);
    if id in d.acked {
      assert ws == [w1, w2, w3, w4];
      ApplyNone(d, Apply);
      assert ws[..cut] == if cut == 0 then [] else if cut == 1 then [w1] else if cut == 2 then [w1, w2]
                          else if cut == 3 then [w1, w2] + [w3] else [w1, w2] + [w3, w4];
      ApplyOne(d, w1, Apply);
      ApplyTwo(d, w1, w2, Apply);
      ApplyAllConcat(d, [w1, w2], [w3], Apply);
      ApplyAllConcat(d, [w1, w2], [w3, w4], Apply);
      ApplyOne(d2, w3, Apply);
      ApplyTwo(d2, w3, w4, Apply);
    } else {
      assert d1 == d;
      assert ws == [w2, w3, w4];
      ApplyNone(d, Apply);
      assert ws[..cut] == if cut == 0 then [] else if cut == 1 then [w2]
                          else if cut == 2 then [w2, w3] else [w2, w3] + [w4];
      ApplyOne(d, w2, Apply);
      ApplyTwo(d, w2, w3, Apply);
      ApplyAllConcat(d, [w2, w3], [w4], Apply);
      ApplyOne(d3, w4, Apply);
    }
  }

  lemma {:induction false} AppendSafe(d: Disk, id: Key, p: Payload, cut: nat, n: int)
    requires Safe(d) && NextAtMost(d, n) && n + 1 < U64_LIMIT
    requires cut <= |AppendWrites(d, id, p)|
    ensures var d' := ApplyAll(d, AppendWrites(d, id, p)[..cut], Apply);
            && Safe(d') && NextAtMost(d', n + 1)
            && (forall k :: k in Entries(d) ==> k in Entries(d') && d'.pending[k] == d.pending[k])
  {
    hide Be64, FromBe64, SumLens, ApplyAll, Safe;
    NumberedEffect(d, id, n);
    StowedEffect(d, id, p, n);
    AppendEffect(d, id, p, n);
    AppendPrefix(d, id, p, cut);
    var d' := ApplyAll(d, AppendWrites(d, id, p)[..cut], Apply);
    assert forall k :: k in Entries(d') ==> Entries(d')[k] == d'.pending[k];
    assert forall k :: k in Entries(d) ==> Entries(d)[k] == d.pending[k];
  }

  // ---- runs ----

  ghost function Appends(steps: seq<Step>): nat {
    if steps == [] then 0
    else Appends(steps[..|steps| - 1]) + if steps[|steps| - 1].event.Append? then 1 else 0
  }

  lemma NextUnchanged(d: Disk, d': Disk, n: int)
    requires NextAtMost(d, n)
    ensures d'.seqs == d.seqs ==> NextAtMost(d', n)
  {
    assert d'.seqs == d.seqs ==> forall x :: Next(d', x) == Next(d, x);
  }

  lemma StepSafe(d: Disk, max: u64, s: Step, n: int)
    requires Safe(d) && NextAtMost(d, n)
    requires s.event.Append? ==> n + 1 < U64_LIMIT
    ensures var d' := After(d, max, s);
            && Safe(d')
            && NextAtMost(d', if s.event.Append? then n + 1 else n)
  {
    hide Be64, FromBe64, SumLens, ApplyAll, AckInnerWrites, AppendWrites;
    var ws := EventWrites(d, max, s.event);
    var cut := if s.cut < |ws| then s.cut else |ws|;
    assert Prefix(ws, s.cut) == ws[..cut];
    ApplyNone(d, Apply);
    match s.event {
      case Append(id, p) =>
        AppendSafe(d, id, p, cut, n);
      case Ack(id) =>
        if id !in d.acked {
          AckSafe(d, id, cut);
        }
      case EvictRound =>
        if OverBudget(d, max) {
          AckSafe(d, OldestId(d).value, cut);
        }
      case Complete(id) =>
        ApplyOne(d, PutCompleted(id), Apply);
        assert ws[..cut] == [] || ws[..cut] == ws;
        assert Entries(Apply(d, PutCompleted(id))) == Entries(d);
    }
    NextUnchanged(d, After(d, max, s), n);
  }

  /** Over every run, with a stop after any write: the recorded total never exceeds the bytes
      really pending, and an acknowledged cycle has no pending entry. */
  lemma {:induction false} CrashSafety(max: u64, steps: seq<Step>)
    requires Appends(steps) < U64_LIMIT
    ensures var d := Run(EMPTY_DISK, max, steps);
            && Safe(d) && NextAtMost(d, Appends(steps))
    decreases |steps|
  {
    hide Be64, FromBe64, SumLens, ApplyAll, AckInnerWrites, AppendWrites;
    if steps == [] {
      assert Entries(EMPTY_DISK) == map[];
    } else {
      var front, last := steps[..|steps| - 1], steps[|steps| - 1];
      CrashSafety(max, front);
      StepSafe(Run(EMPTY_DISK, max, front), max, last, Appends(front));
    }
  }

  /** Eviction frees nothing while the bytes really pending fit the budget, in any reachable state. */
  lemma {:induction false} EvictionNeedsRealOverflow(max: u64, steps: seq<Step>)
    requires Appends(steps) < U64_LIMIT
    ensures var d := Run(EMPTY_DISK, max, steps);
            Sum(d) <= max ==> EventWrites(d, max, EvictRound) == []
  {
    CrashSafety(max, steps);
  }

  /** Only an acknowledgement or an eviction whose cycle prefix the key carries can take an entry away;
      no write, in any order of stops, alters a payload. */
  lemma EntrySurvives(d: Disk, max: u64, s: Step, n: int, k: Key)
    requires Safe(d) && NextAtMost(d, n)
    requires s.event.Append? ==> n + 1 < U64_LIMIT
    requires k in Entries(d)
    requires s.event.Ack? ==> !(CyclePrefix(s.event.id) <= k)
    requires s.event.EvictRound? && OverBudget(d, max) ==> !(CyclePrefix(OldestId(d).value) <= k)
    ensures k in Entries(After(d, max, s)) && After(d, max, s).pending[k] == d.pending[k]
  {
    hide Be64, FromBe64, SumLens, ApplyAll, AckInnerWrites, AppendWrites;
    var ws := EventWrites(d, max, s.event);
    var cut := if s.cut < |ws| then s.cut else |ws|;
    assert Prefix(ws, s.cut) == ws[..cut];
    ApplyNone(d, Apply);
    match s.event {
      case Append(id, p) =>
        AppendSafe(d, id, p, cut, n);
      case Ack(id) =>
        if id !in d.acked {
          AckSafe(d, id, cut);
        }
      case EvictRound =>
        if OverBudget(d, max) {
          AckSafe(d, OldestId(d).value, cut);
        }
      case Complete(id) =>
        ApplyOne(d, PutCompleted(id), Apply);
        assert ws[..cut] == [] || ws[..cut] == ws;
    }
  }

  // ---- runs without a stop ----

  /** An acknowledgement or a turn of eviction whose prefix the key carries. */
  ghost predicate Covers(d: Disk, max: u64, e: Event, k: Key) {
    match e
    case Ack(id) => CyclePrefix(id) <= k
    case EvictRound => OverBudget(d, max) && CyclePrefix(OldestId(d).value) <= k
    case _ => false
  }

  lemma {:induction false} RunLast(d: Disk, max: u64, front: seq<Step>, last: Step)
    ensures Run(d, max, front + [last]) == After(Run(d, max, front), max, last)
    ensures Appends(front + [last]) == Appends(front) + if last.event.Append? then 1 else 0
  {
    hide After;
    assert (front + [last])[..|front|] == front;
  }

  lemma {:induction false} RunNothing(d: Disk, max: u64)
    ensures Run(d, max, []) == d && Appends([]) == 0
  {
  }

  lemma {:induction false} RunFrom(d: Disk, max: u64, a: seq<Step>, b: seq<Step>)
    ensures Run(d, max, a + b) == Run(Run(d, max, a), max, b)
    ensures Appends(a + b) == Appends(a) + Appends(b)
    decreases |b|
  {
    hide Run, Appends;
    if b == [] {
      RunNothing(Run(d, max, a), max);
      assert a + b == a;
    } else {
      var front, last := b[..|b| - 1], b[|b| - 1];
      RunFrom(d, max, a, front);
      RunLast(d, max, a + front, last);
      RunLast(Run(d, max, a), max, front, last);
      assert a + b == a + front + [last] && b == front + [last];
    }
  }

  lemma {:induction false} EntrySurvivesRun(d: Disk, max: u64, steps: seq<Step>, n: int, k: Key)
    requires Safe(d) && NextAtMost(d, n) && n + Appends(steps) < U64_LIMIT
    requires k in Entries(d)
    requires forall i :: 0 <= i < |steps| ==> !Covers(Run(d, max, steps[..i]), max, steps[i].event, k)
    ensures var e := Run(d, max, steps);
            && Safe(e) && NextAtMost(e, n + Appends(steps))
            && k in Entries(e) && e.pending[k] == d.pending[k]
    decreases |steps|
  {
    hide Safe, After, NextAtMost, Covers, Entries, Next;
    if steps != [] {
      var last := |steps| - 1;
      var front := steps[..last];
      forall i | 0 <= i < last
        ensures !Covers(Run(d, max, front[..i]), max, front[i].event, k)
      {
        assert front[..i] == steps[..i];
      }
      EntrySurvivesRun(d, max, front, n, k);
      var m := Run(d, max, front);
      assert !Covers(m, max, steps[last].event, k);
      NotCovered(m, max, steps[last], k);
      EntrySurvives(m, max, steps[last], n + Appends(front), k);
      StepSafe(m, max, steps[last], n + Appends(front));
    }
  }

  lemma NotCovered(d: Disk, max: u64, s: Step, k: Key)
    requires !Covers(d, max, s.event, k)
    ensures s.event.Ack? ==> !(CyclePrefix(s.event.id) <= k)
    ensures s.event.EvictRound? && OverBudget(d, max) ==> !(CyclePrefix(OldestId(d).value) <= k)
  {
  }

  /** An entry whose append has finished is pending with its payload after any further run, stopped
      anywhere, in which no acknowledgement and no turn of eviction covers its key. */
  lemma {:induction false} AppendedStaysPending(max: u64, a: seq<Step>, id: Key, p: Payload, cut: nat, b: seq<Step>)
    requires cut >= |AppendWrites(Run(EMPTY_DISK, max, a), id, p)|
    requires Appends(a) + 1 + Appends(b) < U64_LIMIT
    requires var k := PendingKey(id, Next(Run(EMPTY_DISK, max, a), id));
             var d := Run(EMPTY_DISK, max, a + [Step(Append(id, p), cut)]);
             forall i :: 0 <= i < |b| ==> !Covers(Run(d, max, b[..i]), max, b[i].event, k)
    ensures var k := PendingKey(id, Next(Run(EMPTY_DISK, max, a), id));
            var e := Run(EMPTY_DISK, max, a + [Step(Append(id, p), cut)] + b);
            k in Entries(e) && e.pending[k] == p
  {
    hide Safe, NextAtMost, AppendWrites, ApplyAll, Covers, Entries, Run, Appends, Next, PendingKey;
    AppendedIsPending(max, a, id, p, cut);
    RunFrom(EMPTY_DISK, max, a + [Step(Append(id, p), cut)], b);
    var k := PendingKey(id, Next(Run(EMPTY_DISK, max, a), id));
    EntrySurvivesRun(Run(EMPTY_DISK, max, a + [Step(Append(id, p), cut)]), max, b, Appends(a) + 1, k);
  }

  lemma {:induction false} AppendedIsPending(max: u64, a: seq<Step>, id: Key, p: Payload, cut: nat)
    requires cut >= |AppendWrites(Run(EMPTY_DISK, max, a), id, p)|
    requires Appends(a) + 1 < U64_LIMIT
    ensures var k := PendingKey(id, Next(Run(EMPTY_DISK, max, a), id));
            var d := Run(EMPTY_DISK, max, a + [Step(Append(id, p), cut)]);
            Safe(d) && NextAtMost(d, Appends(a) + 1) && k in Entries(d) && d.pending[k] == p
  {
    hide Safe, NextAtMost, AppendWrites, ApplyAll, Entries, Run, Appends, After;
    hide Appended, Next, PendingKey, Sum, Recorded;
    var st := Step(Append(id, p), cut);
    CrashSafety(max, a);
    var d0 := Run(EMPTY_DISK, max, a);
    RunFrom(EMPTY_DISK, max, a, [st]);
    RunOne(d0, max, st);
    FinishedAppend(d0, max, id, p, cut);
    AppendEffect(d0, id, p, Appends(a));
    EntryValue(Run(EMPTY_DISK, max, a + [st]), PendingKey(id, Next(d0, id)));
  }

  lemma {:induction false} FinishedAppend(d: Disk, max: u64, id: Key, p: Payload, cut: nat)
    requires cut >= |AppendWrites(d, id, p)|
    ensures After(d, max, Step(Append(id, p), cut)) == ApplyAll(d, AppendWrites(d, id, p), Apply)
  {
    hide AppendWrites, ApplyAll;
  }

  lemma EntryValue(d: Disk, k: Key)
    ensures k in Entries(d) ==> Entries(d)[k] == d.pending[k]
  {
  }

  lemma {:induction false} RunOne(d: Disk, max: u64, st: Step)
    ensures Run(d, max, [st]) == After(d, max, st)
    ensures Appends([st]) == if st.event.Append? then 1 else 0
  {
    hide After;
    RunNothing(d, max);
    RunLast(d, max, [], st);
    assert [] + [st] == [st];
  }

  ghost function AppendCount(events: seq<Event>): nat {
    if events == [] then 0
    else AppendCount(events[..|events| - 1]) + if events[|events| - 1].Append? then 1 else 0
  }

  ghost function AppendedBytes(events: seq<Event>): nat {
    if events == [] then 0
    else
      AppendedBytes(events[..|events| - 1])
      + if events[|events| - 1].Append? then |events[|events| - 1].payload| else 0
  }

  lemma {:induction false} WholeStep(d: Disk, max: u64, e: Event, n: int)
    requires Safe(d) && Exact(d) && NextAtMost(d, n)
    requires e.Append? ==> n + 1 < U64_LIMIT && Sum(d) + |e.payload| < I64_LIMIT
    ensures var d' := ApplyAll(d, EventWrites(d, max, e), Apply);
            && Safe(d') && Exact(d') && NextAtMost(d', if e.Append? then n + 1 else n)
            && Sum(d') <= Sum(d) + if e.Append? then |e.payload| else 0
  {
    hide Be64, FromBe64, SumLens, ApplyAll, AckInnerWrites, AppendWrites, Safe;
    ApplyNone(d, Apply);
    match e {
      case Append(id, p) =>
        AppendEffect(d, id, p, n);
      case Ack(id) =>
        AckEffect(d, id);
        SumShrinks(d, ApplyAll(d, AckInnerWrites(d, id), Apply));
        NextUnchanged(d, ApplyAll(d, AckInnerWrites(d, id), Apply), n);
      case EvictRound =>
        if OverBudget(d, max) {
          AckEffect(d, OldestId(d).value);
          SumShrinks(d, ApplyAll(d, AckInnerWrites(d, OldestId(d).value), Apply));
          NextUnchanged(d, ApplyAll(d, AckInnerWrites(d, OldestId(d).value), Apply), n);
        }
      case Complete(id) =>
        ApplyOne(d, PutCompleted(id), Apply);
        CompleteEffect(d, id);
        NextUnchanged(d, Apply(d, PutCompleted(id)), n);
    }
  }

  lemma CompleteEffect(d: Disk, id: Key)
    ensures var d' := Apply(d, PutCompleted(id));
            Entries(d') == Entries(d) && (Safe(d) ==> Safe(d')) && Recorded(d') == Recorded(d) && d'.seqs == d.seqs
  {
    hide Be64, FromBe64, SumLens;
  }

  lemma {:induction false} SumShrinks(d: Disk, d': Disk)
    requires exists ks: set<Key> :: Entries(d') == Entries(d) - ks
    ensures Sum(d') <= Sum(d)
  {
    var ks: set<Key> :| Entries(d') == Entries(d) - ks;
    SumLensMinus(Entries(d), ks);
  }

  /** When every operation finishes, the counter is the exact number of pending bytes. */
  lemma {:induction false} CounterExact(max: u64, events: seq<Event>)
    requires AppendCount(events) < U64_LIMIT && AppendedBytes(events) < I64_LIMIT
    ensures var d := WholeRun(EMPTY_DISK, max, events);
            && Exact(d) && Safe(d)
            && NextAtMost(d, AppendCount(events)) && Sum(d) <= AppendedBytes(events)
    decreases |events|
  {
    if events == [] {
      assert Entries(EMPTY_DISK) == map[];
    } else {
      hide Be64, FromBe64, SumLens, ApplyAll, EventWrites, Safe, Exact;
      var front, last := events[..|events| - 1], events[|events| - 1];
      CounterExact(max, front);
      WholeStep(WholeRun(EMPTY_DISK, max, front), max, last, AppendCount(front));
    }
  }
}
