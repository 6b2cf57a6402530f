/** The journal object: the source's operations on its trees, each proved to issue exactly the
    list of writes that the crash model cuts. */
module Journal {
  import opened Bytes
  import opened JournalDisk
  import opened JournalSafety
  import opened Trees
  import opened JournalEviction
  import opened JournalBudget
  import opened JournalCalls
  import opened JournalView
  import opened JournalStats
  import Utf8
  import opened Wrappers
  import opened Writes

  class Journal {
    var pending: Tree
    var seqs: Tree
    var acked: set<Key>
    var completed: set<Key>
    const maxBytes: u64

    /** Every tree write issued since the journal was opened, in order. */
    ghost var log: seq<Write>

    constructor Open(d: Disk, maxBytes: u64)
      ensures Content() == d && this.maxBytes == maxBytes && log == []
    {
      pending, seqs, acked, completed := d.pending, d.seqs, d.acked, d.completed;
      this.maxBytes := maxBytes;
      log := [];
    }

    function Content(): Disk
      reads this
    {
      Disk(pending, seqs, acked, completed)
    }

    /** The trees moved on by the writes `ws`, and the log says so. */
    twostate predicate Issued(ws: seq<Write>)
      reads this
    {
      Content() == ApplyAll(old(Content()), ws, Apply) && log == old(log) + ws
    }

    /** The journal stands where n turns of eviction lead from `d`, and `before` plus their writes were issued. */
    ghost predicate Turned(d: Disk, n: nat, before: seq<Write>)
      reads this
    {
      Content() == Rounds(d, maxBytes, n) && log == before + RoundsWrites(d, maxBytes, n)
    }

    /** The one place that touches the trees, one write at a time. */
    method Issue(w: Write)
      modifies this
      ensures Issued([w])
      ensures Content() == Apply(old(Content()), w)
    {
      match w {
        case PutPending(k, v) => pending := pending[k := v];
        case DelPending(k) => pending := pending - {k};
        case PutSeq(k, v) => seqs := seqs[k := v];
        case PutAcked(k) => acked := acked + {k};
        case DelAcked(k) => acked := acked - {k};
        case PutCompleted(k) => completed := completed + {k};
        case DelCompleted(k) => completed := completed - {k};
      }
      log := log + [w];
      ApplyOne(old(Content()), w, Apply);
    }

    method NextSeq(id: Key) returns (given: u64)
      modifies this
      ensures given == old(Next(Content(), id))
      ensures Issued([PutSeq(id, Be64(Succ(given)))])
    {
      var cur := if id in seqs && |seqs[id]| >= 8 then FromBe64(seqs[id][..8]) else 0;
      Issue(PutSeq(id, Be64(if cur == U64_MAX then 0 else cur + 1)));
      given := cur;
    }

    function TotalBytes(): (n: u64)
      reads this
      ensures n == Recorded(Content())
    {
      if TOTAL_KEY in pending && |pending[TOTAL_KEY]| >= 8 then FromBe64(pending[TOTAL_KEY][..8]) else 0
    }

    method AddTotal(delta: i64) returns (before: u64)
      modifies this
      ensures before == old(Recorded(Content()))
      ensures Issued([JournalDisk.AddTotal(old(Content()), delta)])
    {
      hide Be64, FromBe64, Recorded;
      before := TotalBytes();
      var sum: i64 := Wrap(Wrap(before) + delta);
      Issue(PutPending(TOTAL_KEY, Be64(if sum < 0 then 0 else sum)));
    }

    /** Walks the tree from its smallest key and stops at the first visible one. */
    method OldestUnackedCycle() returns (r: Option<Key>)
      ensures r == OldestId(Content())
    {
      var keys := Ascending(pending.Keys);
      for i := 0 to |keys|
        invariant forall j :: 0 <= j < i ==> !Visible(keys[j])
      {
        var k := keys[i];
        assert k in keys;
        if Visible(k) {
          LeastVisible(Content(), keys, i);
          var colon := LastColon(k);
          if colon < 0 {
            return None;
          }
          return Some(Utf8.Lossy(k[..colon]));
        }
      }
      NoneVisible(Content(), keys);
      return None;
    }

    method FreeEntry(k: Key)
      modifies this
      ensures Issued(FreeWrites(old(Content()), k))
    {
      hide Be64, FromBe64, JournalDisk.AddTotal, ApplyAll;
      ghost var d := Content();
      if k in pending {
        var _ := AddTotal(-|pending[k]|);
      }
      ghost var d1 := Content();
      Issue(DelPending(k));
      FreeIssued(d, d1, k);
    }

    method AckCycleInner(id: Key) returns (count: nat)
      modifies this
      ensures Issued(AckInnerWrites(old(Content()), id))
      ensures count == |set k | k in old(pending) && CyclePrefix(id) <= k|
    {
      hide Ascending, FreeWrites, ApplyAll;
      ghost var d0, log0 := Content(), log;
      var keys := Scan(pending, CyclePrefix(id));
      count := 0;
      ghost var done: seq<Write> := [];
      ApplyNone(d0, Apply);
      for i := 0 to |keys|
        invariant count == i
        invariant Content() == ApplyAll(d0, done, Apply) && log == log0 + done
        invariant DropWrites(d0, keys) == done + DropWrites(Content(), keys[i..])
      {
        ghost var ws := FreeWrites(Content(), keys[i]);
        assert keys[i..][1..] == keys[i + 1..];
        FreeEntry(keys[i]);
        count := count + 1;
        ApplyAllConcat(d0, done, ws, Apply);
        done := done + ws;
      }
      assert keys[|keys|..] == [];
      assert done == DropWrites(d0, keys) by { assert done + [] == done; }
      ghost var d1 := Content();
      Issue(PutAcked(id));
      Issue(DelCompleted(id));
      ApplyTwo(d1, PutAcked(id), DelCompleted(id), Apply);
      ApplyAllConcat(d0, done, [PutAcked(id), DelCompleted(id)], Apply);
    }

    /** Idempotent: a second acknowledgement writes nothing and frees nothing. */
    method AckCycle(id: Key) returns (count: nat)
      modifies this
      ensures Issued(AckWrites(old(Content()), id))
      ensures id in old(acked) ==> count == 0 && Content() == old(Content())
      ensures id !in old(acked) ==> count == |set k | k in old(pending) && CyclePrefix(id) <= k|
      ensures id in acked
    {
      ApplyNone(Content(), Apply);
      if id in acked {
        return 0;
      }
      count := AckCycleInner(id);
      LastWriteAcks(old(Content()), id);
    }

    /** A call that need not return: it is watched for `turns` turns of its loop, and `ended` says
        whether it has returned by then. */
    method EvictIfNeeded(turns: nat) returns (ended: bool)
      modifies this
      ensures Turned(old(Content()), turns, old(log))
      ensures Issued(RoundsWrites(old(Content()), maxBytes, turns))
      ensures ended <==> !OverBudget(Content(), maxBytes)
    {
      hide ApplyAll, AckInnerWrites, OldestId, Rounds, RoundsWrites;
      ghost var d0 := Content();
      var left := turns;
      RoundsZero(d0, maxBytes);
      RoundsAreWrites(d0, maxBytes, turns);
      while maxBytes > 0 && TotalBytes() > maxBytes
        invariant 0 <= left <= turns
        invariant Turned(d0, turns - left, old(log))
        decreases left
      {
        ghost var d := Content();
        var oldest := OldestUnackedCycle();
        if oldest.None? {
          break;
        }
        if left == 0 {
          return false;
        }
        var _ := AckCycleInner(oldest.value);
        OneMoreTurn(d0, d, maxBytes, turns - left);
        left := left - 1;
      }
      ended := true;
      NoMoreTurns(d0, maxBytes, turns - left, left);
    }

    /** Appends a payload and then brings the journal back under its budget, watched for `turns` turns;
        `None` where the call has not returned by then. When it returns, from any safe state, the bytes
        exceed the budget by no more than the counter lacked before, unless only hidden entries are left. */
    method Append(id: Key, payload: Payload, turns: nat) returns (given: Option<u64>)
      modifies this
      ensures var ws := AppendWrites(old(Content()), id, payload);
              Turned(ApplyAll(old(Content()), ws, Apply), turns, old(log) + ws)
      ensures Issued(CallWrites(old(Content()), maxBytes, id, payload, turns))
      ensures given == if OverBudget(Content(), maxBytes) then None else Some(old(Next(Content(), id)))
      ensures given.Some? && maxBytes > 0 && old(Safe(Content()) && NextAtMost(Content(), U64_MAX - 1)) ==>
                var added := ApplyAll(old(Content()), AppendWrites(old(Content()), id, payload), Apply);
                var hidden := SumLens(HiddenEntries(added));
                && Safe(Content())
                && (Recorded(Content()) <= maxBytes <==> hidden - Gap(added) <= maxBytes)
                && 0 <= Gap(Content()) <= Gap(added)
                && (Sum(Content()) <= maxBytes + Gap(added) || Sum(Content()) == hidden)
                && (Sum(Content()) > maxBytes && Sum(Content()) != hidden
                    <==> exists k :: StopsShort(added, maxBytes, k))
                && (old(Recorded(Content())) + |payload| < I64_LIMIT ==> Gap(added) == old(Gap(Content())))
    {
      hide ApplyAll, Safe, Entries, OldestId, SumLens, HiddenEntries, Be64, FromBe64;
      hide Rounds, RoundsWrites, Gap, NextAtMost, StopsShort;
      ghost var d0 := Content();
      var s := Store(id, payload);
      ghost var added := Content();
      var ended := EvictIfNeeded(turns);
      CallEffect(d0, maxBytes, id, payload, turns);
      given := if ended then Some(s) else None;
      if ended && maxBytes > 0 && Safe(d0) && NextAtMost(d0, U64_MAX - 1) {
        AppendEffect(d0, id, payload, U64_MAX - 1);
        RoundsSafe(added, maxBytes, turns);
        BudgetMet(added, maxBytes, turns);
        BudgetMissedIff(added, maxBytes, turns);
        if Recorded(d0) + |payload| < I64_LIMIT {
          FinishedAppendGap(d0, id, payload, U64_MAX - 1);
        }
      }
    }

    /** The part of an append before eviction. */
    method Store(id: Key, payload: Payload) returns (s: u64)
      modifies this
      ensures s == old(Next(Content(), id))
      ensures Issued(AppendWrites(old(Content()), id, payload))
    {
      hide ApplyAll, Be64, FromBe64;
      ghost var d0, log0 := Content(), log;
      if id in acked {
        Issue(DelAcked(id));
      }
      ghost var d1 := Content();
      s := NextSeq(id);
      ApplyOne(d1, PutSeq(id, Be64(Succ(s))), Apply);
      ghost var d2 := Content();
      Issue(PutPending(PendingKey(id, s), payload));
      ghost var d3 := Content();
      var _ := AddTotal(|payload|);
      ApplyOne(d3, JournalDisk.AddTotal(d3, |payload|), Apply);
      AppendIssued(d0, id, payload, d1, d2, d3, Content());
      assert log == log0 + AppendWrites(d0, id, payload);
    }

    method MarkCycleLocallyComplete(id: Key)
      modifies this
      ensures Issued([PutCompleted(id)])
    {
      Issue(PutCompleted(id));
    }

    method GetStats() returns (s: Stats)
      ensures s == StatsOf(Content())
      ensures s.entries == |Counted(Content())| && s.cycles == |Starts(Ascending(Counted(Content())))|
    {
      StatsExact(Content());
      hide Utf8.Lossy, FromBe64, Ascending, Tally, StrictlyAscending, Counted, Starts;
      var keys := Ascending(pending.Keys);
      var cycles, entries := 0, 0;
      var last: Option<Key> := None;
      NothingTallied();
      for i := 0 to |keys|
        invariant Tally(keys[..i]) == Tallied(cycles, entries, last)
      {
        var k := keys[i];
        assert keys[..i + 1] == keys[..i] + [k];
        TallySnoc(keys[..i], k);
        if !Visible(k) {
          continue;
        }
        var colon := LastColon(k);
        if colon < 0 {
          continue;
        }
        var id := Utf8.Lossy(k[..colon]);
        entries := entries + 1;
        if last != Some(id) {
          cycles := cycles + 1;
          last := Some(id);
        }
      }
      assert keys[..|keys|] == keys;
      s := Stats(cycles, entries, TotalBytes());
    }

    method Pending() returns (cycles: seq<Cycle>)
      ensures cycles == Listing(Content())
    {
      hide Grouped, Shown, Utf8.Lossy, FromBe64, LastColon, Ascending;
      ghost var d := Content();
      var keys := Ascending(pending.Keys);
      ShownNone(d);
      cycles := [];
      for i := 0 to |keys|
        invariant cycles == Grouped(Shown(d, keys[..i]))
      {
        var k := keys[i];
        assert keys[..i + 1] == keys[..i] + [k];
        assert k in keys;
        ShownSnoc(d, keys[..i], k);
        assert Shown(d, keys[..i]) + [] == Shown(d, keys[..i]);
        if !Visible(k) {
          continue;
        }
        var colon := LastColon(k);
        if colon < 0 {
          continue;
        }
        var id := Utf8.Lossy(k[..colon]);
        if |k| < colon + 9 {
          continue;
        }
        var s := FromBe64(k[colon + 1..colon + 9]);
        GroupedSnoc(Shown(d, keys[..i]), Item(id, s, pending[k]));
        if cycles != [] && cycles[|cycles| - 1].id == id {
          var entries := cycles[|cycles| - 1].entries + [CycleEntry(s, pending[k])];
          cycles := cycles[..|cycles| - 1] + [Cycle(id, entries)];
        } else {
          cycles := cycles + [Cycle(id, [CycleEntry(s, pending[k])])];
        }
      }
      assert keys[..|keys|] == keys;
    }
  }

  // ---- steps of the proofs above ----

  lemma LeastVisible(d: Disk, keys: seq<Key>, i: nat)
    requires keys == Ascending(d.pending.Keys) && i < |keys| && Visible(keys[i])
    requires forall j :: 0 <= j < i ==> !Visible(keys[j])
    ensures VisibleKeys(d) != {} && Least(VisibleKeys(d)) == keys[i]
  {
    hide Lt;
    var vs := VisibleKeys(d);
    assert keys[i] in keys;
    assert keys[i] in vs;
    var k := Least(vs);
    assert k in keys;
    var j :| 0 <= j < |keys| && keys[j] == k;
    LtTotal(keys[i], k);
    assert i <= j;
  }

  lemma NothingTallied()
    ensures Tally([]) == Tallied(0, 0, None)
  {
  }

  lemma {:induction false} ShownNone(d: Disk)
    ensures Grouped(Shown(d, [])) == []
  {
  }

  lemma NoneVisible(d: Disk, keys: seq<Key>)
    requires keys == Ascending(d.pending.Keys)
    requires forall j :: 0 <= j < |keys| ==> !Visible(keys[j])
    ensures OldestId(d) == None
  {
    forall k | k in d.pending
      ensures !Visible(k)
    {
      assert k in keys;
    }
    assert VisibleKeys(d) == {};
  }

  lemma {:induction false} FreeIssued(d: Disk, d1: Disk, k: Key)
    requires d1 == if k in d.pending then ApplyAll(d, [JournalDisk.AddTotal(d, -|d.pending[k]|)], Apply) else d
    ensures ApplyAll(d, FreeWrites(d, k), Apply) == Apply(d1, DelPending(k))
    ensures FreeWrites(d, k) ==
            if k in d.pending then [JournalDisk.AddTotal(d, -|d.pending[k]|)] + [DelPending(k)] else [DelPending(k)]
  {
    hide Be64, FromBe64, JournalDisk.AddTotal, ApplyAll;
    ApplyOne(d1, DelPending(k), Apply);
    if k in d.pending {
      ApplyAllConcat(d, [JournalDisk.AddTotal(d, -|d.pending[k]|)], [DelPending(k)], Apply);
    } else {
      assert FreeWrites(d, k) == [DelPending(k)];
    }
  }

  lemma {:induction false} LastWriteAcks(d: Disk, id: Key)
    ensures id in ApplyAll(d, AckInnerWrites(d, id), Apply).acked
  {
    var drop := DropWrites(d, Scan(d.pending, CyclePrefix(id)));
    hide DropWrites, ApplyAll, Scan;
    ApplyAllConcat(d, drop, [PutAcked(id), DelCompleted(id)], Apply);
    ApplyTwo(ApplyAll(d, drop, Apply), PutAcked(id), DelCompleted(id), Apply);
  }

  /** One turn further: the writes of the turn are those of the acknowledgement. */
  lemma OneMoreTurn(d0: Disk, d: Disk, max: u64, n: nat)
    requires d == Rounds(d0, max, n) && OverBudget(d, max)
    ensures ApplyAll(d, AckInnerWrites(d, OldestId(d).value), Apply) == Rounds(d0, max, n + 1)
    ensures RoundsWrites(d0, max, n + 1) == RoundsWrites(d0, max, n) + AckInnerWrites(d, OldestId(d).value)
  {
    hide ApplyAll, AckInnerWrites, OldestId, RoundsWrites;
    RoundsSnoc(d0, max, n);
    RoundsWritesSnoc(d0, max, n);
  }

  lemma {:induction false} AppendIssued(d: Disk, id: Key, p: Payload, d1: Disk, d2: Disk, d3: Disk, d4: Disk)
    requires d1 == Unacked(d, id)
    requires d2 == Apply(d1, PutSeq(id, Be64(Succ(Next(d, id)))))
    requires d3 == Apply(d2, PutPending(PendingKey(id, Next(d, id)), p))
    requires d4 == Apply(d3, JournalDisk.AddTotal(d3, |p|))
    ensures d4 == ApplyAll(d, AppendWrites(d, id, p), Apply)
    ensures JournalDisk.AddTotal(d3, |p|) == JournalDisk.AddTotal(d, |p|)
  {
    hide Be64, FromBe64, ApplyAll;
    PendingKeyParts(id, Next(d, id));
    assert Recorded(d3) == Recorded(d);
    var ws := AppendWrites(d, id, p);
    AppendPrefix(d, id, p, |ws|);
    assert ws[..|ws|] == ws;
  }
}
