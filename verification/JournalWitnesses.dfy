/** Runs of the journal on which what its comments promise does not hold. */
module JournalWitnesses {
  import opened Bytes
  import opened JournalDisk
  import opened JournalSafety
  import opened JournalEviction
  import opened JournalBudget
  import opened JournalView
  import opened JournalStats
  import opened JournalSplit
  import opened JournalTermination
  import opened JournalHistory
  import opened Trees
  import opened Wrappers
  import Utf8
  import opened Writes

  /** A whole run and its last append. */
  lemma {:induction false} OneMoreAppend(max: u64, events: seq<Event>, id: Key, p: Payload)
    requires AppendCount(events) + 1 < U64_LIMIT && AppendedBytes(events) + |p| < I64_LIMIT
    ensures var d := WholeRun(EMPTY_DISK, max, events);
            var e := WholeRun(EMPTY_DISK, max, events + [Append(id, p)]);
            && Entries(e) == Entries(d)[PendingKey(id, Next(d, id)) := p]
            && e.acked == d.acked - {id} && e.completed == d.completed
            && (forall x :: Next(e, x) == Next(d, x) + if x == id then 1 else 0)
            && Safe(e) && Exact(e) && Sum(e) == Sum(d) + |p|
    ensures AppendCount(events + [Append(id, p)]) == AppendCount(events) + 1
    ensures AppendedBytes(events + [Append(id, p)]) == AppendedBytes(events) + |p|
  {
    hide WholeRun, Safe, Entries, ApplyAll, AppendWrites, Next, Exact, NextAtMost, PendingKey;
    var d := WholeRun(EMPTY_DISK, max, events);
    assert (events + [Append(id, p)])[..|events|] == events;
    CounterExact(max, events);
    WholeRunSnoc(max, events, Append(id, p));
    AppendEffect(d, id, p, AppendCount(events));
    CounterExact(max, events + [Append(id, p)]);
    forall x
      ensures Next(ApplyAll(d, AppendWrites(d, id, p), Apply), x) == Next(d, x) + if x == id then 1 else 0
    {
      NextAfter(d, max, Append(id, p), AppendCount(events), x);
    }
  }

  lemma {:induction false} EmptyRun(max: u64)
    ensures WholeRun(EMPTY_DISK, max, []) == EMPTY_DISK && Entries(EMPTY_DISK) == map[] && Sum(EMPTY_DISK) == 0
    ensures forall id :: Next(EMPTY_DISK, id) == 0
    ensures AppendCount([]) == 0 && AppendedBytes([]) == 0
  {
    assert Entries(EMPTY_DISK) == map[];
    SumLensEmpty();
  }

  // ---- a cycle listed twice ----

  /** "a", and "a:" followed by eight zero bytes. */
  const ID_A: Key := [0x61]
  const ID_B: Key := [0x61, 0x3A, 0, 0, 0, 0, 0, 0, 0, 0]
  const SPLIT: seq<Event> := [Append(ID_A, []), Append(ID_B, []), Append(ID_A, [])]

  lemma SplitRun()
    ensures var d := WholeRun(EMPTY_DISK, 0, SPLIT);
            && Safe(d)
            && Entries(d).Keys == {PendingKey(ID_A, 0), PendingKey(ID_B, 0), PendingKey(ID_A, 1)}
  {
    hide WholeRun, Safe, Entries, Next, Exact, PendingKey, AppendCount, AppendedBytes, SumLens;
    EmptyRun(0);
    assert [] + [Append(ID_A, [])] == [Append(ID_A, [])];
    OneMoreAppend(0, [], ID_A, []);
    OneMoreAppend(0, [Append(ID_A, [])], ID_B, []);
    OneMoreAppend(0, [Append(ID_A, [])] + [Append(ID_B, [])], ID_A, []);
    assert SPLIT == [Append(ID_A, [])] + [Append(ID_B, [])] + [Append(ID_A, [])];
  }

  lemma SplitOrder()
    ensures Lt(Be64(0), Be64(0) + [COLON] + Be64(0)) && Lt(Be64(0) + [COLON] + Be64(0), Be64(1))
    ensures COLON !in Be64(0) && COLON !in Be64(1)
  {
    hide Lt, Be64;
    LowBytes(0);
    LowBytes(1);
    LtProperPrefix(Be64(0), [COLON] + Be64(0));
    assert Be64(0) + ([COLON] + Be64(0)) == Be64(0) + [COLON] + Be64(0);
    var zeros: Key := [0, 0, 0, 0, 0, 0, 0];
    assert Be64(0) + [COLON] + Be64(0) == zeros + ([0, COLON] + Be64(0));
    assert Be64(1) == zeros + [1];
    LtFirst(zeros, [0, COLON] + Be64(0), [1]);
  }

  lemma Continues()
    ensures ID_B == ID_A + [COLON] + Be64(0)
  {
    hide Be64;
    LowBytes(0);
  }

  /** Three appends to two ids, one of which continues the other after a colon, and the first id is listed
      twice. */
  lemma ColonSplitsCycle()
    ensures !DistinctIds(Listing(WholeRun(EMPTY_DISK, 0, SPLIT)))
  {
    hide WholeRun, Be64, FromBe64, Lt, Listing, SumLens, Recorded, Utf8.Valid, Fresh, AckedClear;
    var d := WholeRun(EMPTY_DISK, 0, SPLIT);
    SplitRun();
    SplitOrder();
    AsciiIsValid(ID_A);
    AsciiIsValid(ID_B);
    PendingKeyParts(ID_A, 0);
    PendingKeyParts(ID_B, 0);
    PendingKeyParts(ID_A, 1);
    assert TextIds(d);
    Continues();
    assert Splits(d, ID_A, 0, Be64(0), 0, 1);
    ListedOnceIff(d);
  }

  // ---- an entry that is not listed ----

  /** The first number whose entry the listing skips is 58. */
  lemma {:induction false} FirstSkippedSeq(id: Key, s: u64)
    requires Utf8.Valid(id) && !(HIDDEN_PREFIX <= id) && s <= 58
    ensures Decoded(PendingKey(id, s)).Some? <==> s != 58
  {
    hide Be64, Utf8.Valid, Decoded;
    DecodedExact(id, s);
    PlainBelow58(s);
  }

  /** After 59 appends to one cycle the last one is pending and not listed. */
  lemma {:induction false} LastOf59Skipped(id: Key)
    requires Utf8.Valid(id) && !(HIDDEN_PREFIX <= id)
    ensures var d := WholeRun(EMPTY_DISK, 0, EmptyAppends(id, 59));
            && PendingKey(id, 58) in Entries(d)
            && forall g, i :: 0 <= g < |Listing(d)| && 0 <= i < |Listing(d)[g].entries| ==>
                 Listing(d)[g].entries[i].s != 58
  {
    hide WholeRun, EmptyAppends, Listing, Be64, FromBe64, Next, AppendCount, AppendedBytes;
    hide SumLens, Utf8.Valid, PendingKey;
    var n := 58;
    AppendsCounted(id, n);
    AfterEmptyAppends(0, id, n);
    AfterEmptyAppends(0, id, n + 1);
    OneMoreAppend(0, EmptyAppends(id, n), id, []);
    var d := WholeRun(EMPTY_DISK, 0, EmptyAppends(id, n + 1));
    assert TextIds(d);
    PlainBelow58(58);
    forall g, i | 0 <= g < |Listing(d)| && 0 <= i < |Listing(d)[g].entries|
      ensures Listing(d)[g].entries[i].s != 58
    {
      ListingComplete(d, Item(Listing(d)[g].id, Listing(d)[g].entries[i].s, Listing(d)[g].entries[i].payload));
    }
  }

  lemma {:induction false} AppendsCounted(id: Key, n: nat)
    ensures AppendCount(EmptyAppends(id, n)) == n && AppendedBytes(EmptyAppends(id, n)) == 0
    ensures EmptyAppends(id, n + 1) == EmptyAppends(id, n) + [Append(id, [])]
    decreases n
  {
    if n > 0 {
      AppendsCounted(id, n - 1);
      var front := EmptyAppends(id, n - 1);
      assert (front + [Append(id, [])])[..|front|] == front;
    }
  }

  function KeysOf(id: Key, n: nat): seq<Key>
    requires n < U64_LIMIT
  {
    if n == 0 then [] else KeysOf(id, n - 1) + [PendingKey(id, n - 1)]
  }

  lemma {:induction false} KeysInOrder(id: Key, n: nat)
    requires n < U64_LIMIT
    ensures |KeysOf(id, n)| == n && forall s :: 0 <= s < n ==> KeysOf(id, n)[s] == PendingKey(id, s)
    decreases n
  {
    hide PendingKey;
    if n > 0 {
      KeysInOrder(id, n - 1);
    }
  }

  lemma {:induction false} EmptyAppendKeys(id: Key, n: nat)
    requires n + 2 < U64_LIMIT && !(HIDDEN_PREFIX <= id)
    ensures Ascending(VisibleKeys(WholeRun(EMPTY_DISK, 0, EmptyAppends(id, n)))) == KeysOf(id, n)
    decreases n
  {
    hide WholeRun, EmptyAppends, Next, PendingKey, Ascending, Safe, VisibleKeys, KeysOf, Entries, Exact;
    if n == 0 {
      NothingVisibleYet(id);
    } else {
      var d, e := WholeRun(EMPTY_DISK, 0, EmptyAppends(id, n - 1)), WholeRun(EMPTY_DISK, 0, EmptyAppends(id, n));
      EmptyAppendKeys(id, n - 1);
      OneMoreVisible(id, n - 1);
      LastKey(id, n - 1);
      forall k | k in VisibleKeys(d)
        ensures Lt(k, PendingKey(id, n - 1))
      {
        assert k in Ascending(VisibleKeys(d));
      }
      AscendingSnoc(VisibleKeys(d), PendingKey(id, n - 1));
    }
  }

  lemma {:induction false} LastKey(id: Key, n: nat)
    requires n + 1 < U64_LIMIT
    ensures KeysOf(id, n + 1) == KeysOf(id, n) + [PendingKey(id, n)]
    ensures forall k :: k in KeysOf(id, n) ==> Lt(k, PendingKey(id, n))
  {
    KeysInOrder(id, n);
    hide PendingKey, KeysOf, Lt;
    forall k | k in KeysOf(id, n)
      ensures Lt(k, PendingKey(id, n))
    {
      var s :| 0 <= s < n && KeysOf(id, n)[s] == k;
      SameCycleSeqOrder(id, s, n);
    }
  }

  lemma {:induction false} OneMoreVisible(id: Key, n: nat)
    requires n + 3 < U64_LIMIT && !(HIDDEN_PREFIX <= id)
    ensures VisibleKeys(WholeRun(EMPTY_DISK, 0, EmptyAppends(id, n + 1))) ==
            VisibleKeys(WholeRun(EMPTY_DISK, 0, EmptyAppends(id, n))) + {PendingKey(id, n)}
  {
    hide WholeRun, EmptyAppends, Next, AppendCount, AppendedBytes, PendingKey, Safe, VisibleKeys, Entries, Exact;
    var d, e := WholeRun(EMPTY_DISK, 0, EmptyAppends(id, n)), WholeRun(EMPTY_DISK, 0, EmptyAppends(id, n + 1));
    AppendsCounted(id, n);
    OneMoreAppend(0, EmptyAppends(id, n), id, []);
    AfterEmptyAppends(0, id, n);
    NextIs(d, id, n);
    KeyVisible(id, n);
    VisibleEntries(d);
    VisibleEntries(e);
  }

  lemma {:induction false} NothingVisibleYet(id: Key)
    ensures Ascending(VisibleKeys(WholeRun(EMPTY_DISK, 0, EmptyAppends(id, 0)))) == [] == KeysOf(id, 0)
  {
    assert VisibleKeys(EMPTY_DISK) == {};
  }

  lemma NextIs(d: Disk, id: Key, n: nat)
    requires OnlyCycle(d, id, n)
    ensures Next(d, id) == n
  {
  }

  /** The text that the counters see in a key: the id, unless the number ends in 0x3A. */
  lemma {:induction false} TextIn(id: Key, s: u64)
    requires Utf8.Valid(id) && s <= 58
    ensures s < 58 ==> TextOf(PendingKey(id, s)) == id
    ensures s == 58 ==> TextOf(PendingKey(id, s)) != id
  {
    hide Be64, Utf8.Valid, Utf8.Lossy;
    var k := PendingKey(id, s);
    LowBytes(s);
    PlainBelow58(s);
    Utf8.LossyIdentityIffValid(id);
    if s < 58 {
      assert forall i :: |id| < i < |k| ==> k[i] == Be64(s)[i - |id| - 1];
      assert k[|id|] == COLON;
      assert LastColon(k) == |id| && k[..|id|] == id;
    } else {
      assert k[|k| - 1] == COLON;
      assert LastColon(k) == |k| - 1;
      Utf8.LossyNotShorter(k[..|k| - 1]);
    }
  }

  /** After 59 appends to one cycle the counters report 59 entries, in two cycles. */
  lemma {:induction false} StatsOf59(id: Key)
    requires Utf8.Valid(id) && !(HIDDEN_PREFIX <= id)
    ensures var s := StatsOf(WholeRun(EMPTY_DISK, 0, EmptyAppends(id, 59)));
            s.entries == 59 && s.cycles == 2
  {
    hide WholeRun, EmptyAppends, VisibleKeys, Ascending, KeysOf, Counted, StatsOf, OnlyCycle, Starts;
    var d := WholeRun(EMPTY_DISK, 0, EmptyAppends(id, 59));
    AfterEmptyAppends(0, id, 59);
    SafeWhole(d, id);
    StatsExact(d);
    CountedEntries(d);
    EmptyAppendKeys(id, 59);
    KeysInOrder(id, 59);
    StartsOf59(id);
  }

  lemma {:induction false} StartsOf59(id: Key)
    requires Utf8.Valid(id)
    ensures |KeysOf(id, 59)| == 59 && Starts(KeysOf(id, 59)) == {0, 58}
  {
    hide TextOf, PendingKey, Utf8.Valid, KeysOf;
    KeysInOrder(id, 59);
    var l := KeysOf(id, 59);
    forall s | 0 <= s < 59
      ensures s < 58 <==> TextOf(l[s]) == id
    {
      TextIn(id, s);
    }
    forall i | 0 <= i < 59
      ensures StartsAt(l, i) <==> i == 0 || i == 58
    {
      assert i > 0 ==> (i - 1 < 58 <==> TextOf(l[i - 1]) == id);
    }
  }

  lemma SafeWhole(d: Disk, id: Key)
    requires OnlyCycle(d, id, 59)
    ensures WellKeyed(d)
  {
  }

  // ---- a budget that is not met ----

  /** One append to an id that starts with "__": eviction returns at once, above the budget. */
  lemma {:induction false} HiddenIdOverBudget(max: u64, id: Key, p: Payload)
    requires HIDDEN_PREFIX <= id && 0 < max < |p|
    ensures var d := WholeRun(EMPTY_DISK, max, [Append(id, p)]);
            !OverBudget(d, max) && Recorded(d) > max
  {
    hide WholeRun, Be64, Next, AppendCount, AppendedBytes, SumLens, OldestId;
    EmptyRun(max);
    assert [] + [Append(id, p)] == [Append(id, p)];
    OneMoreAppend(max, [], id, p);
    var d := WholeRun(EMPTY_DISK, max, [Append(id, p)]);
    OldestKey(d);
    KeyVisible(id, 0);
  }

  /** One append above the budget, stopped before its counter write: eviction does nothing, in this process
      or the next. */
  lemma {:induction false} StoppedAppendOverBudget(max: u64, id: Key, p: Payload)
    requires 0 < max < |p|
    ensures var d := Run(EMPTY_DISK, max, [Step(Append(id, p), 2)]);
            Sum(d) == |p| && Recorded(d) == 0 && !OverBudget(d, max) && EventWrites(d, max, EvictRound) == []
  {
    hide Be64, FromBe64, ApplyAll, SumLens, OldestId, AppendWrites, Next;
    RunOne(EMPTY_DISK, max, Step(Append(id, p), 2));
    EmptyRun(max);
    StartSafe();
    assert |AppendWrites(EMPTY_DISK, id, p)| == 3 by { ThreeWrites(id, p); }
    AppendPrefix(EMPTY_DISK, id, p, 2);
    StowedEffect(EMPTY_DISK, id, p, 0);
    NothingPending();
  }

  lemma {:induction false} StartSafe()
    ensures Safe(EMPTY_DISK) && NextAtMost(EMPTY_DISK, 0)
  {
    CrashSafety(0, []);
  }

  lemma {:induction false} ThreeWrites(id: Key, p: Payload)
    ensures |AppendWrites(EMPTY_DISK, id, p)| == 3
  {
  }

  // ---- an acknowledgement that frees another cycle ----

  /** Acknowledging an id frees what was appended to an id that continues it after a colon. */
  lemma AckFreesContinuation(id: Key, r: Key, p: Payload)
    ensures var other := id + [COLON] + r;
            && PendingKey(other, 0) in Entries(WholeRun(EMPTY_DISK, 0, [Append(other, p)]))
            && Entries(WholeRun(EMPTY_DISK, 0, [Append(other, p), Ack(id)])) == map[]
  {
    hide WholeRun, Be64, Next, AppendCount, AppendedBytes, SumLens, Safe, AckInnerWrites, ApplyAll, Entries;
    var other := id + [COLON] + r;
    EmptyRun(0);
    assert [] + [Append(other, p)] == [Append(other, p)];
    OneMoreAppend(0, [], other, p);
    var d := WholeRun(EMPTY_DISK, 0, [Append(other, p)]);
    assert [Append(other, p), Ack(id)] == [Append(other, p)] + [Ack(id)];
    WholeRunSnoc(0, [Append(other, p)], Ack(id));
    AckEffect(d, id);
    assert PendingKey(other, 0) == CyclePrefix(id) + (r + [COLON] + Be64(0));
    assert CyclePrefix(id) <= PendingKey(other, 0);
  }

  // ---- a completion mark that stays ----

  /** A cycle acknowledged, then completed, then acknowledged again keeps its completion mark. */
  lemma {:induction false} CompletionStays(max: u64, id: Key)
    ensures id in WholeRun(EMPTY_DISK, max, [Ack(id), Complete(id), Ack(id)]).completed
  {
    hide WholeRun, AckInnerWrites, ApplyAll, Entries, SumLens;
    EmptyRun(max);
    WholeRunSnoc(max, [], Ack(id));
    WholeRunSnoc(max, [Ack(id)], Complete(id));
    WholeRunSnoc(max, [Ack(id)] + [Complete(id)], Ack(id));
    assert [] + [Ack(id)] == [Ack(id)];
    assert [Ack(id), Complete(id), Ack(id)] == [Ack(id)] + [Complete(id)] + [Ack(id)];
    AckEffect(EMPTY_DISK, id);
    var d := ApplyAll(EMPTY_DISK, AckInnerWrites(EMPTY_DISK, id), Apply);
    ApplyOne(d, PutCompleted(id), Apply);
    ApplyNone(Apply(d, PutCompleted(id)), Apply);
  }

  // ---- an eviction that is not of the oldest cycle ----

  /** Two cycles, each with one append, together over the budget: the turn of eviction takes the one whose
      key is smaller, although the other was appended first. */
  lemma {:induction false} LaterCycleEvicted(max: u64, first: Key, p: Payload, later: Key, q: Payload)
    requires PlainId(first) && PlainId(later) && !(HIDDEN_PREFIX <= first) && !(HIDDEN_PREFIX <= later)
    requires Lt(PendingKey(later, 0), PendingKey(first, 0))
    requires 0 < max < |p| + |q| < I64_LIMIT
    ensures Entries(WholeRun(EMPTY_DISK, max, [Append(first, p), Append(later, q), EvictRound])) ==
            map[PendingKey(first, 0) := p]
  {
    hide WholeRun, Entries, ApplyAll, AckInnerWrites, OldestId, Safe, Exact, Utf8.Valid;
    hide PendingKey, Lt, Be64, Recorded, Sum, Next;
    LtIrreflexive(PendingKey(first, 0));
    var d := WholeRun(EMPTY_DISK, max, [Append(first, p)] + [Append(later, q)]);
    TwoAppends(max, first, p, later, q);
    assert [Append(first, p), Append(later, q), EvictRound] == [Append(first, p)] + [Append(later, q)] + [EvictRound];
    WholeRunSnoc(max, [Append(first, p)] + [Append(later, q)], EvictRound);
    LaterIsSmallest(d, max, first, later);
    AckEffect(d, later);
    OnlyUnder(first, later);
  }

  lemma {:induction false} TwoAppends(max: u64, first: Key, p: Payload, later: Key, q: Payload)
    requires PlainId(first) && PlainId(later) && first != later && |p| + |q| < I64_LIMIT
    ensures var d := WholeRun(EMPTY_DISK, max, [Append(first, p)] + [Append(later, q)]);
            && Safe(d) && PlainDisk(d) && Recorded(d) == |p| + |q|
            && Entries(d) == map[PendingKey(first, 0) := p, PendingKey(later, 0) := q]
  {
    hide WholeRun, Entries, Safe, PlainId, PendingKey, AppendCount, AppendedBytes, Next, Sum, Recorded, PlainDisk;
    EmptyRun(max);
    assert [] + [Append(first, p)] == [Append(first, p)];
    OneMoreAppend(max, [], first, p);
    OneMoreAppend(max, [Append(first, p)], later, q);
    CountOne(first, p, later, q);
    RunIsLogged(max, [Append(first, p)] + [Append(later, q)], []);
  }

  lemma CountOne(first: Key, p: Payload, later: Key, q: Payload)
    requires PlainId(first) && PlainId(later) && |p| + |q| < I64_LIMIT
    ensures PlainRun([Append(first, p)] + [Append(later, q)])
  {
    var one, two := [Append(first, p)], [Append(first, p)] + [Append(later, q)];
    assert two[..1] == one && one[..0] == [];
    assert AppendCount([]) == 0 && AppendedBytes([]) == 0;
    assert AppendCount(one) == 1 && AppendedBytes(one) == |p|;
  }

  lemma LaterIsSmallest(d: Disk, max: u64, first: Key, later: Key)
    requires Safe(d) && PlainDisk(d) && 0 < max < Recorded(d)
    requires Entries(d).Keys == {PendingKey(first, 0), PendingKey(later, 0)}
    requires !(HIDDEN_PREFIX <= first) && !(HIDDEN_PREFIX <= later)
    requires Lt(PendingKey(later, 0), PendingKey(first, 0))
    ensures OverBudget(d, max) && OldestId(d) == Some(later)
  {
    hide OldestId, Utf8.Valid, PendingKey, Lt, Be64, FromBe64, Recorded, Sum;
    hide Fresh, AckedClear, KeyId, KeySeq, IsEntryKey;
    OldestKey(d);
    KeyVisible(first, 0);
    KeyVisible(later, 0);
    VisibleEntries(d);
    var k := Least(VisibleKeys(d));
    LtTotal(PendingKey(later, 0), PendingKey(first, 0));
    assert k == PendingKey(later, 0);
    OldestParts(d, max);
    PendingKeyParts(later, 0);
    PlainBelow58(0);
  }

  lemma OnlyUnder(first: Key, later: Key)
    requires COLON !in first && COLON !in later && first != later
    ensures CyclePrefix(later) <= PendingKey(later, 0) && !(CyclePrefix(later) <= PendingKey(first, 0))
  {
    hide Be64;
    if CyclePrefix(later) <= PendingKey(first, 0) {
      ColonFreePrefix(later, first, 0);
    }
  }
}
