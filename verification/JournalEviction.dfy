/** The eviction loop: when it ends, when it cannot end, and what it leaves. */
module JournalEviction {
  import opened Bytes
  import opened JournalDisk
  import opened JournalSafety
  import opened Trees
  import Utf8
  import opened Writes

  /** One turn of the loop, and n turns. A turn outside the guard changes nothing. */
  function Round(d: Disk, max: u64): Disk {
    ApplyAll(d, EvictRoundWrites(d, max), Apply)
  }

  function Rounds(d: Disk, max: u64, n: nat): Disk
    decreases n
  {
    if n == 0 then d else Rounds(Round(d, max), max, n - 1)
  }

  /** The writes of n turns, one turn after the other. */
  function RoundsWrites(d: Disk, max: u64, n: nat): seq<Write>
    decreases n
  {
    if n == 0 then [] else EvictRoundWrites(d, max) + RoundsWrites(Round(d, max), max, n - 1)
  }

  ghost predicate Terminates(d: Disk, max: u64) {
    exists n: nat :: !OverBudget(Rounds(d, max, n), max)
  }

  /** Acknowledging `id` frees at least one entry. */
  ghost predicate Frees(d: Disk, id: Key) {
    exists k :: k in Entries(d) && CyclePrefix(id) <= k
  }

  ghost predicate FreesOldest(d: Disk, max: u64) {
    OverBudget(d, max) ==> Frees(d, OldestId(d).value)
  }

  ghost predicate Drains(d: Disk, max: u64) {
    forall n: nat :: FreesOldest(Rounds(d, max, n), max)
  }

  lemma {:induction false} RoundsAdd(d: Disk, max: u64, a: nat, b: nat)
    ensures Rounds(d, max, a + b) == Rounds(Rounds(d, max, a), max, b)
    decreases a
  {
    if a != 0 {
      RoundsAdd(Round(d, max), max, a - 1, b);
    }
  }

  lemma {:induction false} RoundsWritesSnoc(d: Disk, max: u64, n: nat)
    ensures RoundsWrites(d, max, n + 1) == RoundsWrites(d, max, n) + EvictRoundWrites(Rounds(d, max, n), max)
    decreases n
  {
    hide Round, EvictRoundWrites;
    if n != 0 {
      RoundsWritesSnoc(Round(d, max), max, n - 1);
    } else {
      assert RoundsWrites(Round(d, max), max, 0) == [];
    }
  }

  lemma RoundEffect(d: Disk, max: u64)
    requires Safe(d)
    ensures var d' := Round(d, max);
            && Safe(d') && d'.seqs == d.seqs && (Exact(d) ==> Exact(d')) && Lowered(d, d')
            && (forall k :: k in Entries(d') ==> k in Entries(d) && d'.pending[k] == d.pending[k])
            && (!OverBudget(d, max) ==> d' == d)
            && (OverBudget(d, max) ==>
                  var p := CyclePrefix(OldestId(d).value);
                  Entries(d') == Entries(d) - (set k | k in Entries(d) && p <= k))
            && (OverBudget(d, max) && !Frees(d, OldestId(d).value) ==> d'.pending == d.pending)
  {
    hide ApplyAll, AckInnerWrites, Safe, OldestId;
    ApplyNone(d, Apply);
    if OverBudget(d, max) {
      var id := OldestId(d).value;
      AckEffect(d, id);
      AckSafe(d, id, |AckInnerWrites(d, id)|);
      assert AckInnerWrites(d, id)[..|AckInnerWrites(d, id)|] == AckInnerWrites(d, id);
    }
  }

  lemma EntryCountShrinks(d: Disk, max: u64)
    requires Safe(d) && OverBudget(d, max) && Frees(d, OldestId(d).value)
    ensures |Entries(Round(d, max)).Keys| < |Entries(d).Keys|
  {
    hide Round, Safe, OldestId;
    RoundEffect(d, max);
    var p := CyclePrefix(OldestId(d).value);
    var gone := set k | k in Entries(d) && p <= k;
    var k :| k in Entries(d) && p <= k;
    assert k in gone;
    assert Entries(Round(d, max)).Keys == Entries(d).Keys - gone;
    SmallerSet(Entries(d).Keys, gone, k);
  }

  lemma SmallerSet(s: set<Key>, gone: set<Key>, k: Key)
    requires k in s && k in gone
    ensures |s - gone| < |s|
  {
    SubsetSize(s - gone, s - {k});
  }

  lemma {:induction false} SubsetSize(a: set<Key>, b: set<Key>)
    requires a <= b
    ensures |a| <= |b|
    decreases |a|
  {
    if k :| k in a {
      SubsetSize(a - {k}, b - {k});
    }
  }

  /** At most one turn per pending entry. */
  lemma {:induction false} DrainingTerminates(d: Disk, max: u64) returns (n: nat)
    requires Safe(d) && Drains(d, max)
    ensures !OverBudget(Rounds(d, max, n), max)
    ensures n <= |Entries(d).Keys|
    decreases |Entries(d).Keys|
  {
    hide Round, Safe, OldestId;
    if OverBudget(d, max) {
      assert FreesOldest(Rounds(d, max, 0), max);
      EntryCountShrinks(d, max);
      RoundEffect(d, max);
      var d' := Round(d, max);
      forall m: nat
        ensures FreesOldest(Rounds(d', max, m), max)
      {
        assert FreesOldest(Rounds(d, max, m + 1), max);
      }
      var m := DrainingTerminates(d', max);
      n := m + 1;
    } else {
      n := 0;
    }
  }

  lemma SamePendingSameGuard(d: Disk, e: Disk, max: u64)
    requires d.pending == e.pending
    ensures OldestId(d) == OldestId(e)
    ensures OverBudget(d, max) <==> OverBudget(e, max)
    ensures forall id :: Frees(d, id) <==> Frees(e, id)
  {
    assert VisibleKeys(d) == VisibleKeys(e);
    assert Entries(d) == Entries(e);
    assert Recorded(d) == Recorded(e);
  }

  /** A turn that frees nothing is followed by the same turn for ever. */
  lemma {:induction false} StuckForever(d: Disk, max: u64, n: nat)
    requires Safe(d) && OverBudget(d, max) && !Frees(d, OldestId(d).value)
    ensures Rounds(d, max, n).pending == d.pending
    ensures OverBudget(Rounds(d, max, n), max)
    decreases n
  {
    hide Round, Safe, OldestId, Frees;
    if n != 0 {
      RoundEffect(d, max);
      SamePendingSameGuard(d, Round(d, max), max);
      StuckForever(Round(d, max), max, n - 1);
    }
  }

  lemma NeverEnds(d: Disk, max: u64)
    requires Safe(d) && OverBudget(d, max) && !Frees(d, OldestId(d).value)
    ensures !Terminates(d, max)
  {
    hide Round, Safe, OldestId, Frees;
    forall n: nat
      ensures OverBudget(Rounds(d, max, n), max)
    {
      StuckForever(d, max, n);
    }
  }

  lemma {:induction false} RoundsSafe(d: Disk, max: u64, n: nat)
    requires Safe(d)
    ensures Safe(Rounds(d, max, n)) && Rounds(d, max, n).seqs == d.seqs
    ensures (Exact(d) ==> Exact(Rounds(d, max, n))) && Lowered(d, Rounds(d, max, n))
    ensures forall k :: k in Entries(Rounds(d, max, n)) ==> k in Entries(d)
    decreases n
  {
    hide Round, Safe, Entries, Exact;
    if n != 0 {
      RoundEffect(d, max);
      RoundsSafe(Round(d, max), max, n - 1);
      LoweredTwice(d, Round(d, max), Rounds(d, max, n));
    }
  }

  // ---- which keys decode to their own cycle ----

  /** The part before the last colon is well-formed text, so decoding it loses nothing. */
  predicate Clean(k: Key) {
    LastColon(k) >= 0 && Utf8.Valid(k[..LastColon(k)])
  }

  ghost predicate AllClean(d: Disk) {
    forall k :: k in Entries(d) && Visible(k) ==> Clean(k)
  }

  lemma OldestKey(d: Disk)
    requires WellKeyed(d)
    ensures OldestId(d).Some? <==> exists k :: k in Entries(d) && Visible(k)
    ensures OldestId(d).Some? ==>
              && VisibleKeys(d) != {}
              && var k := Least(VisibleKeys(d));
                 && k in Entries(d) && Visible(k) && LastColon(k) >= 0
                 && OldestId(d).value == Utf8.Lossy(k[..LastColon(k)])
  {
    assert HIDDEN_PREFIX <= TOTAL_KEY;
    forall k | k in VisibleKeys(d)
      ensures k in Entries(d) && LastColon(k) >= 0
    {
      assert IsEntryKey(k);
      assert k[|k| - 9] == COLON;
    }
    assert forall k :: k in Entries(d) && Visible(k) ==> k in VisibleKeys(d);
  }

  lemma CleanFreesOldest(d: Disk, max: u64)
    requires WellKeyed(d) && AllClean(d)
    ensures FreesOldest(d, max)
  {
    hide OldestId, VisibleKeys, LastColon;
    if OverBudget(d, max) {
      OldestKey(d);
      var k := Least(VisibleKeys(d));
      var c := LastColon(k);
      assert Clean(k);
      Utf8.LossyIdentityIffValid(k[..c]);
      assert CyclePrefix(k[..c]) == k[..c + 1] <= k;
    }
  }

  /** If every visible key decodes cleanly the loop ends, whatever the budget, after at most as many turns
      as there are entries. */
  lemma CleanTerminates(d: Disk, max: u64)
    requires Safe(d) && AllClean(d)
    ensures exists n: nat :: n <= |Entries(d).Keys| && !OverBudget(Rounds(d, max, n), max)
  {
    hide Clean, Rounds, Safe, OverBudget, FreesOldest;
    forall n: nat
      ensures FreesOldest(Rounds(d, max, n), max)
    {
      RoundsSafe(d, max, n);
      SafeWellKeyed(Rounds(d, max, n));
      CleanFreesOldest(Rounds(d, max, n), max);
    }
    var n := DrainingTerminates(d, max);
  }

  lemma {:induction false} LastColonOfConcat(a: Key, b: Key)
    ensures LastColon(a + b) == if LastColon(b) >= 0 then |a| + LastColon(b) else LastColon(a)
  {
    var expected := if LastColon(b) >= 0 then |a| + LastColon(b) else LastColon(a);
    assert expected >= 0 ==> (a + b)[expected] == COLON;
    assert forall i :: expected < i < |a + b| ==> (a + b)[i] != COLON;
  }

  lemma {:induction false} ColonText(id: Key, rest: Key)
    requires Utf8.Valid(id)
    ensures Utf8.Valid(id + [COLON] + rest) <==> Utf8.Valid(rest)
  {
    assert Utf8.Decode([COLON]) == Utf8.Front(true, 1);
    assert [COLON][1..] == [];
    Utf8.ValidConcat(id, [COLON]);
    Utf8.ValidConcat(id + [COLON], rest);
  }

  /** Whether a key is clean depends on its sequence number alone: the bytes before the last 0x3A
      of the encoding, if there is one, must be well-formed text. */
  lemma {:induction false} CleanIffSeq(id: Key, s: u64)
    requires Utf8.Valid(id)
    ensures var b := Be64(s);
            Clean(PendingKey(id, s)) <==> LastColon(b) < 0 || Utf8.Valid(b[..LastColon(b)])
  {
    hide Be64, Utf8.Decode, Utf8.Valid, LastColon;
    var b := Be64(s);
    var head := id + [COLON];
    var k := PendingKey(id, s);
    LastColonOfConcat(head, b);
    LastColonOfConcat(id, [COLON]);
    assert [COLON][0] == COLON;
    assert LastColon([COLON]) == 0;
    var c := LastColon(b);
    if c >= 0 {
      assert k[..|head| + c] == head + b[..c];
      ColonText(id, b[..c]);
    } else {
      assert k[..|id|] == id;
    }
  }

  lemma {:induction false} LastColonIs(k: Key, c: nat)
    requires c < |k| && k[c] == COLON
    requires forall i :: c < i < |k| ==> k[i] != COLON
    ensures LastColon(k) == c
  {
  }

  lemma OneByteValid(h: byte)
    ensures Utf8.Valid([h]) <==> h < 0x80
  {
    assert [h][1..] == [];
  }

  /** The first sequence number whose key no longer decodes to its own cycle is 0x803A. */
  lemma {:induction false} FirstUncleanSeq(id: Key, s: u64)
    requires Utf8.Valid(id) && s <= 0x803A
    ensures Clean(PendingKey(id, s)) <==> s != 0x803A
  {
    hide Be64, Utf8.Valid, Clean;
    CleanIffSeq(id, s);
    LowBytes(s);
    var b := Be64(s);
    var h := s / 256;
    var zeros: Key := [0, 0, 0, 0, 0, 0];
    AsciiIsValid(zeros);
    OneByteValid(h);
    if b[7] == COLON {
      LastColonIs(b, 7);
      assert b[..7] == zeros + [h];
      Utf8.ValidConcat(zeros, [h]);
    } else if b[6] == COLON {
      LastColonIs(b, 6);
      assert b[..6] == zeros;
    } else {
      assert LastColon(b) < 0;
    }
  }

  lemma LowBytes(s: u64)
    requires s < 0x1_0000
    ensures Be64(s) == [0, 0, 0, 0, 0, 0, s / 256, s % 256]
  {
    Pow256Of8();
    BeZero(6);
    assert Be(s, 8) == Be(s / 256, 7) + [s % 256];
    assert Be(s / 256, 7) == Be(0, 6) + [s / 256];
  }

  lemma {:induction false} BeZero(w: nat)
    ensures Be(0, w) == seq(w, _ => 0)
    decreases w
  {
    if w != 0 {
      BeZero(w - 1);
    }
  }

  lemma {:induction false} AsciiIsValid(b: Key)
    requires forall i :: 0 <= i < |b| ==> b[i] < 0x80
    ensures Utf8.Valid(b)
    decreases |b|
  {
    if b != [] {
      assert Utf8.Decode(b) == Utf8.Front(true, 1);
      AsciiIsValid(b[1..]);
    }
  }

  lemma PrefixAt(x: Key, k: Key)
    ensures CyclePrefix(x) <= k ==> |x| < |k| && k[|x|] == COLON && k[..|x|] == x
  {
    if CyclePrefix(x) <= k {
      assert CyclePrefix(x)[|x|] == COLON && CyclePrefix(x)[..|x|] == x;
    }
  }

  /** The id decoded from an unclean key never frees that key. */
  lemma {:induction false} UncleanNeverFreed(k: Key)
    requires LastColon(k) >= 0 && !Clean(k)
    ensures !(CyclePrefix(Utf8.Lossy(k[..LastColon(k)])) <= k)
  {
    var p := k[..LastColon(k)];
    Utf8.LossyNotShorter(p);
    Utf8.LossyIdentityIffValid(p);
    PrefixAt(Utf8.Lossy(p), k);
  }

  /** Where no key holds the bytes of U+FFFD, a turn frees an entry if and only if the smallest
      visible key is clean. */
  lemma FreesOldestIffClean(d: Disk, max: u64)
    requires WellKeyed(d) && OverBudget(d, max)
    requires forall k :: k in Entries(d) ==> !Utf8.HasReplacement(k)
    ensures VisibleKeys(d) != {}
    ensures Frees(d, OldestId(d).value) <==> Clean(Least(VisibleKeys(d)))
  {
    hide OldestId, VisibleKeys, LastColon, Utf8.Lossy, Utf8.Valid;
    OldestKey(d);
    var k := Least(VisibleKeys(d));
    var p := k[..LastColon(k)];
    var x := Utf8.Lossy(p);
    Utf8.LossyIdentityIffValid(p);
    if Clean(k) {
      assert CyclePrefix(p) == k[..LastColon(k) + 1] <= k;
    } else {
      Utf8.LossyMarksMalformed(p);
      forall h | h in Entries(d)
        ensures !(CyclePrefix(x) <= h)
      {
        PrefixAt(x, h);
        MarkInPrefix(x, h);
      }
    }
  }

  lemma MarkInPrefix(x: Key, h: Key)
    requires Utf8.HasReplacement(x)
    ensures |x| <= |h| && h[..|x|] == x ==> Utf8.HasReplacement(h)
  {
    var i :| Utf8.MarkAt(x, i);
    if |x| <= |h| && h[..|x|] == x {
      assert Utf8.MarkAt(h, i);
    }
  }

  /** Over budget with one visible entry left, whose key is unclean: the loop runs for ever. */
  lemma LoneUncleanHangs(d: Disk, max: u64, k: Key)
    requires Safe(d) && max > 0 && Recorded(d) > max
    requires Entries(d).Keys == {k} && Visible(k) && !Clean(k)
    ensures !Terminates(d, max)
  {
    hide Clean, LastColon, Safe;
    SafeWellKeyed(d);
    OldestKey(d);
    assert Least(VisibleKeys(d)) == k;
    UncleanNeverFreed(k);
    hide OldestId;
    NeverEnds(d, max);
  }

  lemma SafeWellKeyed(d: Disk)
    requires Safe(d)
    ensures WellKeyed(d)
  {
  }

  lemma {:induction false} RoundsZero(d: Disk, max: u64)
    ensures Rounds(d, max, 0) == d && RoundsWrites(d, max, 0) == []
  {
  }

  // ---- the budget ----

  /** Entries under ids that start with "__": no iteration sees them. */
  ghost function HiddenEntries(d: Disk): Tree {
    Entries(d) - (set k | k in Entries(d) && Visible(k))
  }

  lemma {:induction false} LossyKeepsVisible(p: Key)
    ensures HIDDEN_PREFIX <= Utf8.Lossy(p) ==> HIDDEN_PREFIX <= p
  {
    var x := Utf8.Lossy(p);
    if HIDDEN_PREFIX <= x {
      assert x[0] == 0x5F && x[1] == 0x5F;
      Utf8.LossyAsciiHead(p);
      Utf8.LossyAsciiHead(p[1..]);
      assert p[1] == p[1..][0];
    }
  }

  lemma {:induction false} DecodedIdIsVisible(k: Key, h: Key)
    requires Visible(k) && LastColon(k) >= 0
    requires !Visible(h)
    ensures !(CyclePrefix(Utf8.Lossy(k[..LastColon(k)])) <= h)
  {
    var p := k[..LastColon(k)];
    LossyKeepsVisible(p);
    PrefixAt(Utf8.Lossy(p), h);
    assert h[0] == 0x5F && h[1] == 0x5F;
  }

  lemma RoundKeepsHidden(d: Disk, max: u64)
    requires Safe(d)
    ensures HiddenEntries(Round(d, max)) == HiddenEntries(d)
  {
    hide Round, Safe, LastColon, VisibleKeys;
    RoundEffect(d, max);
    if OverBudget(d, max) {
      SafeWellKeyed(d);
      hide OldestId;
      OldestKey(d);
      var k := Least(VisibleKeys(d));
      var p := CyclePrefix(OldestId(d).value);
      forall h | h in HiddenEntries(d)
        ensures !(p <= h)
      {
        DecodedIdIsVisible(k, h);
      }
    }
  }

  lemma {:induction false} RoundsKeepHidden(d: Disk, max: u64, n: nat)
    requires Safe(d)
    ensures HiddenEntries(Rounds(d, max, n)) == HiddenEntries(d)
    decreases n
  {
    hide Round, Safe, HiddenEntries;
    if n != 0 {
      RoundEffect(d, max);
      RoundKeepsHidden(d, max);
      RoundsKeepHidden(Round(d, max), max, n - 1);
    }
  }

  // ---- a run that hangs ----

  lemma {:induction false} WholeRunSnoc(max: u64, events: seq<Event>, e: Event)
    ensures var d := WholeRun(EMPTY_DISK, max, events);
            WholeRun(EMPTY_DISK, max, events + [e]) == ApplyAll(d, EventWrites(d, max, e), Apply)
  {
    assert (events + [e])[..|events|] == events;
  }

  function EmptyAppends(id: Key, n: nat): (events: seq<Event>)
    ensures |events| == n
  {
    if n == 0 then [] else EmptyAppends(id, n - 1) + [Append(id, [])]
  }

  ghost predicate OnlyCycle(d: Disk, id: Key, n: int) {
    && Safe(d) && Exact(d) && NextAtMost(d, n) && Next(d, id) == n && Sum(d) == 0
    && (forall k :: k in Entries(d) ==> KeyId(k) == id)
  }

  lemma {:induction false} OneMoreEmptyAppend(d: Disk, id: Key, n: nat)
    requires OnlyCycle(d, id, n) && n + 1 < U64_LIMIT
    ensures var d' := ApplyAll(d, AppendWrites(d, id, []), Apply);
            OnlyCycle(d', id, n + 1) && id !in d'.acked
  {
    hide Safe, ApplyAll, AppendWrites, SumLens, Be64;
    AppendEffect(d, id, [], n);
    PendingKeyParts(id, n);
  }

  lemma {:induction false} AfterEmptyAppends(max: u64, id: Key, n: nat)
    requires n + 2 < U64_LIMIT
    ensures OnlyCycle(WholeRun(EMPTY_DISK, max, EmptyAppends(id, n)), id, n)
    ensures n > 0 ==> id !in WholeRun(EMPTY_DISK, max, EmptyAppends(id, n)).acked
    decreases n
  {
    hide OnlyCycle, WholeRun, ApplyAll, AppendWrites;
    if n == 0 {
      NoCycle(max, id);
    } else {
      AfterEmptyAppends(max, id, n - 1);
      WholeRunSnoc(max, EmptyAppends(id, n - 1), Append(id, []));
      OneMoreEmptyAppend(WholeRun(EMPTY_DISK, max, EmptyAppends(id, n - 1)), id, n - 1);
    }
  }

  lemma {:induction false} NoCycle(max: u64, id: Key)
    ensures OnlyCycle(WholeRun(EMPTY_DISK, max, []), id, 0)
  {
    assert Entries(EMPTY_DISK) == map[];
    SumLensEmpty();
  }

  /** A sequence of calls any client may make leads the loop into a state it cannot leave:
      0x803A appends to one cycle, its acknowledgement, and one more append above the budget. */
  lemma {:induction false} EvictionCanHang(max: u64, id: Key, p: Payload)
    requires Utf8.Valid(id) && !(HIDDEN_PREFIX <= id) && 0 < max < |p|
    ensures var events := EmptyAppends(id, 0x803A) + [Ack(id)] + [Append(id, p)];
            !Terminates(WholeRun(EMPTY_DISK, max, events), max)
  {
    hide Safe, ApplyAll, AppendWrites, AckInnerWrites, SumLens, Be64, Terminates, EmptyAppends, WholeRun, Entries, Next;
    var n := 0x803A;
    AfterEmptyAppends(max, id, n);
    var d := WholeRun(EMPTY_DISK, max, EmptyAppends(id, n));
    WholeRunSnoc(max, EmptyAppends(id, n), Ack(id));
    WholeRunSnoc(max, EmptyAppends(id, n) + [Ack(id)], Append(id, p));
    AckEffect(d, id);
    var e := ApplyAll(d, AckInnerWrites(d, id), Apply);
    OnlyCycleGone(d, e, id, n);
    NextUnchanged(d, e, n);
    UncleanAppendHangs(e, max, id, p);
  }

  /** An append of the unclean number to an empty journal, above the budget. */
  lemma {:induction false} UncleanAppendHangs(e: Disk, max: u64, id: Key, p: Payload)
    requires Utf8.Valid(id) && !(HIDDEN_PREFIX <= id) && 0 < max < |p|
    requires Safe(e) && Exact(e) && NextAtMost(e, 0x803A) && Next(e, id) == 0x803A && Entries(e) == map[] && Sum(e) == 0
    ensures !Terminates(ApplyAll(e, AppendWrites(e, id, p), Apply), max)
  {
    hide Safe, ApplyAll, AppendWrites, SumLens, Be64, Clean, Terminates, Appended;
    var n := 0x803A;
    AppendEffect(e, id, p, n);
    var f := ApplyAll(e, AppendWrites(e, id, p), Apply);
    var k := PendingKey(id, n);
    FirstUncleanSeq(id, n);
    KeyVisible(id, n);
    assert Entries(f).Keys == {k};
    LoneUncleanHangs(f, max, k);
  }

  lemma OnlyCycleGone(d: Disk, e: Disk, id: Key, n: int)
    requires OnlyCycle(d, id, n)
    requires Entries(e) == Entries(d) - (set k | k in Entries(d) && CyclePrefix(id) <= k)
    requires Exact(e) && e.seqs == d.seqs
    ensures Entries(e) == map[] && Sum(e) == 0 && Recorded(e) == 0 && Next(e, id) == n
  {
    forall k | k in Entries(d)
      ensures CyclePrefix(id) <= k
    {
      PendingKeyOfParts(k);
    }
    SumLensEmpty();
  }

  lemma KeyVisible(id: Key, s: u64)
    ensures Visible(PendingKey(id, s)) <==> !(HIDDEN_PREFIX <= id)
  {
    var k := PendingKey(id, s);
    assert k[|id|] == COLON;
    if HIDDEN_PREFIX <= k && |id| >= 2 {
      assert id[0] == k[0] && id[1] == k[1];
    }
  }

  lemma RoundsSnoc(d: Disk, max: u64, n: nat)
    ensures Rounds(d, max, n + 1) == Round(Rounds(d, max, n), max)
  {
    hide Round;
    RoundsAdd(d, max, n, 1);
    assert Rounds(Rounds(d, max, n), max, 1) == Rounds(Round(Rounds(d, max, n), max), max, 0);
  }

  /** Turns outside the guard write nothing. */
  lemma {:induction false} NoMoreTurns(d: Disk, max: u64, n: nat, more: nat)
    requires !OverBudget(Rounds(d, max, n), max)
    ensures Rounds(d, max, n + more) == Rounds(d, max, n)
    ensures RoundsWrites(d, max, n + more) == RoundsWrites(d, max, n)
    decreases more
  {
    hide OverBudget, Rounds, RoundsWrites, ApplyAll;
    if more > 0 {
      NoMoreTurns(d, max, n, more - 1);
      RoundsSnoc(d, max, n + more - 1);
      RoundsWritesSnoc(d, max, n + more - 1);
      ApplyNone(Rounds(d, max, n), Apply);
      assert RoundsWrites(d, max, n) + [] == RoundsWrites(d, max, n);
    }
  }
}
