/** The journal's trees in bytes and plain numbers: keys, counters, guards, and what a stop leaves of an
    acknowledgement. */
module JournalLayout {
  import opened Bytes
  import opened JournalDisk
  import opened JournalSafety
  import opened JournalEviction
  import opened Trees
  import opened Wrappers
  import opened Writes
  import Utf8

  // ---- keys ----

  /** An entry's key is its id, a colon and eight bytes that stand for the number; it is visible unless the id
      starts with two underscores. */
  lemma EntryKey(id: Key, s: u64)
    ensures var k := PendingKey(id, s);
            && |k| == |id| + 9 && k[..|id|] == id && k[|id|] == 0x3A && k[|id| + 1..] == Be64(s)
            && (Visible(k) <==> !(|id| >= 2 && id[0] == 0x5F && id[1] == 0x5F))
    ensures CyclePrefix(id) == id + [0x3A]
  {
    hide Be64;
    KeyVisible(id, s);
    assert HIDDEN_PREFIX <= id <==> |id| >= 2 && id[0] == 0x5F && id[1] == 0x5F;
  }

  // ---- numbers ----

  /** Each append takes the stored number, 0 where there is none of eight bytes, and stores the next one, which
      after the last is 0 again; on any disk. */
  lemma {:induction false} NumbersWrap(d: Disk, id: Key, p: Payload)
    ensures id !in d.seqs || |d.seqs[id]| < 8 ==> Next(d, id) == 0
    ensures id in d.seqs && |d.seqs[id]| >= 8 ==> d.seqs[id][..8] == Be64(Next(d, id))
    ensures Next(ApplyAll(d, AppendWrites(d, id, p), Apply), id) == (Next(d, id) + 1) % 0x1_0000_0000_0000_0000
    ensures ApplyAll(d, AppendWrites(d, id, p), Apply).pending.Keys ==
            d.pending.Keys + {PendingKey(id, Next(d, id)), TOTAL_KEY}
  {
    hide Be64, FromBe64, ApplyAll, PendingKey;
    if id in d.seqs && |d.seqs[id]| >= 8 {
      Be64Bijective(0, d.seqs[id][..8]);
    }
    var n := Succ(Next(d, id));
    Be64Bijective(n, Be64(n));
    assert Be64(n)[..8] == Be64(n);
    var ws := AppendWrites(d, id, p);
    AppendPrefix(d, id, p, |ws|);
    assert ws[..|ws|] == ws;
  }

  /** The counter is what the first eight bytes under "__total_bytes" stand for, and 0 where there are not as many. */
  lemma {:induction false} CounterReads(d: Disk)
    ensures var cell := [0x5F, 0x5F, 0x74, 0x6F, 0x74, 0x61, 0x6C, 0x5F, 0x62, 0x79, 0x74, 0x65, 0x73];
            && (cell in d.pending && |d.pending[cell]| >= 8 ==> d.pending[cell][..8] == Be64(Recorded(d)))
            && (cell !in d.pending || |d.pending[cell]| < 8 ==> Recorded(d) == 0)
  {
    hide Be64, FromBe64;
    if TOTAL_KEY in d.pending && |d.pending[TOTAL_KEY]| >= 8 {
      Be64Bijective(0, d.pending[TOTAL_KEY][..8]);
    }
  }

  /** Whatever the counter holds, moving it adds in 64-bit two's complement and clamps at zero. */
  lemma CounterArithmetic(recorded: u64, delta: i64)
    ensures var half := 0x8000_0000_0000_0000;
            var x := (recorded + delta + half) % 0x1_0000_0000_0000_0000 - half;
            NewTotal(recorded, delta) == if x < 0 then 0 else x
  {
  }

  // ---- guards ----

  /** A turn of eviction writes anything if and only if there is a budget, the counter exceeds it, and some entry
      does not start with two underscores. */
  lemma {:induction false} EvictsIff(d: Disk, max: u64)
    requires WellKeyed(d)
    ensures EventWrites(d, max, EvictRound) != [] <==>
              0 < max < Recorded(d) && exists k :: k in Entries(d) && !(|k| >= 2 && k[0] == 0x5F && k[1] == 0x5F)
  {
    hide DropWrites, OldestId, Recorded;
    OldestKey(d);
    assert forall k: Key :: HIDDEN_PREFIX <= k <==> |k| >= 2 && k[0] == 0x5F && k[1] == 0x5F;
  }

  // ---- a stopped acknowledgement ----

  /** A stop on the way of freeing a list of keys leaves the list's end. */
  lemma {:induction false} DropPart(d: Disk, keys: seq<Key>, cut: nat) returns (n: nat)
    requires Safe(d) && DropList(d, keys) && cut <= |DropWrites(d, keys)|
    ensures var d' := ApplyAll(d, DropWrites(d, keys)[..cut], Apply);
            n <= |keys| && forall k :: k in Entries(d') <==> k in Entries(d) && k !in keys[..n]
    decreases |keys|
  {
    hide Be64, FromBe64, DropWrites, ApplyAll, Safe, Entries, DropList;
    if keys == [] {
      DropNone(d);
      assert DropWrites(d, keys)[..cut] == [];
      n := 0;
    } else {
      DropHead(d, keys);
      var k := keys[0];
      var w := AddTotal(d, -|d.pending[k]|);
      var all := DropWrites(d, keys);
      var d2 := Apply(Apply(d, w), DelPending(k));
      DropOne(d, k);
      DropUnfold(d, keys);
      if cut == 0 {
        assert all[..cut] == [];
        ApplyNone(d, Apply);
        n := 0;
      } else if cut == 1 {
        assert all[..cut] == [w];
        ApplyOne(d, w, Apply);
        n := 0;
      } else {
        var rest := DropWrites(d2, keys[1..])[..cut - 2];
        assert all[..cut] == [w, DelPending(k)] + rest;
        ApplyTwo(d, w, DelPending(k), Apply);
        ApplyAllConcat(d, [w, DelPending(k)], rest, Apply);
        var m := DropPart(d2, keys[1..], cut - 2);
        n := m + 1;
        assert keys[..n] == [k] + keys[1..][..m];
      }
    }
  }

  /** Wherever an acknowledgement is stopped: of the cycle's entries the first in order are gone, so the oldest by
      number; the cycle is marked only when none is left; and its completion mark goes only after that. */
  lemma {:induction false} StoppedAckInOrder(d: Disk, id: Key, cut: nat)
    requires Safe(d) && cut <= |AckInnerWrites(d, id)|
    ensures var d' := ApplyAll(d, AckInnerWrites(d, id)[..cut], Apply);
            && (forall j, k | j in Entries(d) && k in Entries(d') && j !in Entries(d') && id + [0x3A] <= k :: Lt(j, k))
            && (id in d'.acked && id !in d.acked ==> forall k :: k in Entries(d') ==> !(id + [0x3A] <= k))
            && (id in d.completed && id !in d'.completed ==> id in d'.acked)
  {
    hide DropWrites, ApplyAll, Safe, Lt, Entries;
    if cut <= |DropWrites(d, Scan(d.pending, CyclePrefix(id)))| {
      StoppedFreeing(d, id, cut);
    } else {
      StoppedMarking(d, id, cut);
    }
  }

  lemma {:induction false} StoppedFreeing(d: Disk, id: Key, cut: nat)
    requires Safe(d) && cut <= |DropWrites(d, Scan(d.pending, CyclePrefix(id)))| <= |AckInnerWrites(d, id)|
    ensures var d' := ApplyAll(d, AckInnerWrites(d, id)[..cut], Apply);
            && d'.acked == d.acked && d'.completed == d.completed
            && (forall j, k | j in Entries(d) && k in Entries(d') && j !in Entries(d') && id + [0x3A] <= k :: Lt(j, k))
  {
    hide DropWrites, ApplyAll, Safe, Lt, Entries;
    ScanIsDropList(d, id);
    var keys := Scan(d.pending, CyclePrefix(id));
    var drop, all := DropWrites(d, keys), AckInnerWrites(d, id);
    assert all[..cut] == drop[..cut];
    var n := DropPart(d, keys, cut);
    DropSafe(d, keys, cut);
    Beginning(keys, n);
  }

  lemma {:induction false} StoppedMarking(d: Disk, id: Key, cut: nat)
    requires Safe(d) && |DropWrites(d, Scan(d.pending, CyclePrefix(id)))| < cut <= |AckInnerWrites(d, id)|
    ensures var d' := ApplyAll(d, AckInnerWrites(d, id)[..cut], Apply);
            id in d'.acked && forall k :: k in Entries(d') ==> k in Entries(d) && !(id + [0x3A] <= k)
  {
    hide AckInnerWrites, DropWrites, ApplyAll, Safe, Entries, Scan, Lowered;
    var keys := Scan(d.pending, CyclePrefix(id));
    var d1 := ApplyAll(d, DropWrites(d, keys), Apply);
    ScanIsDropList(d, id);
    DropEffect(d, keys);
    AckEnd(d, id, cut);
    Marks(d1, id, cut - |DropWrites(d, keys)|);
    SamePending(d1, ApplyAll(d, AckInnerWrites(d, id)[..cut], Apply));
  }

  /** The writes that come after the entries. */
  lemma {:induction false} AckEnd(d: Disk, id: Key, cut: nat)
    requires |DropWrites(d, Scan(d.pending, CyclePrefix(id)))| < cut <= |AckInnerWrites(d, id)|
    ensures var drop := DropWrites(d, Scan(d.pending, CyclePrefix(id)));
            && 1 <= cut - |drop| <= 2
            && ApplyAll(d, AckInnerWrites(d, id)[..cut], Apply) ==
               ApplyAll(ApplyAll(d, drop, Apply), [PutAcked(id), DelCompleted(id)][..cut - |drop|], Apply)
  {
    hide DropWrites, ApplyAll, Scan;
    var drop := DropWrites(d, Scan(d.pending, CyclePrefix(id)));
    var tail := [PutAcked(id), DelCompleted(id)][..cut - |drop|];
    assert AckInnerWrites(d, id)[..cut] == drop + tail;
    ApplyAllConcat(d, drop, tail, Apply);
  }

  lemma {:induction false} Marks(d: Disk, id: Key, n: nat)
    requires 1 <= n <= 2
    ensures var e := ApplyAll(d, [PutAcked(id), DelCompleted(id)][..n], Apply);
            e.pending == d.pending && id in e.acked
  {
    hide ApplyAll;
    ApplyOne(d, PutAcked(id), Apply);
    ApplyTwo(d, PutAcked(id), DelCompleted(id), Apply);
    assert [PutAcked(id), DelCompleted(id)][..n] == if n == 1 then [PutAcked(id)] else [PutAcked(id), DelCompleted(id)];
  }

  lemma SamePending(d: Disk, e: Disk)
    requires d.pending == e.pending
    ensures Entries(d) == Entries(e)
  {
  }

  lemma Beginning(keys: seq<Key>, n: nat)
    requires StrictlyAscending(keys) && n <= |keys|
    ensures forall j, k :: j in keys[..n] && k in keys && k !in keys[..n] ==> Lt(j, k)
  {
    hide Lt;
    forall j, k | j in keys[..n] && k in keys && k !in keys[..n]
      ensures Lt(j, k)
    {
      var x :| 0 <= x < n && keys[x] == j;
      var y :| 0 <= y < |keys| && keys[y] == k;
      assert y >= n;
    }
  }
}
