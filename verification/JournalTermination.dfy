/** Exactly when the eviction loop ends, from the keys and the counter as they stand before the call. */
module JournalTermination {
  import opened Bytes
  import opened JournalDisk
  import opened JournalSafety
  import opened JournalEviction
  import opened Trees
  import Utf8

  /** The id that a key decodes to. */
  function DecodedId(k: Key): Key
    requires LastColon(k) >= 0
  {
    Utf8.Lossy(k[..LastColon(k)])
  }

  function Under(keys: set<Key>, id: Key): set<Key> {
    set k | k in keys && CyclePrefix(id) <= k
  }

  /** The visible keys that eviction can never reach: from the smallest key on, ids are decoded and their
      keys struck off, up to an id that strikes off nothing. Budget and payloads play no part. */
  function Unreached(keys: set<Key>): (u: set<Key>)
    ensures u <= keys
    decreases |keys|
  {
    if keys == {} then {}
    else
      var k := Least(keys);
      if LastColon(k) < 0 || Under(keys, DecodedId(k)) == {} then keys
      else
        UnderShrinks(keys, DecodedId(k));
        Unreached(keys - Under(keys, DecodedId(k)))
  }

  lemma UnderShrinks(keys: set<Key>, id: Key)
    ensures Under(keys, id) != {} ==> |keys - Under(keys, id)| < |keys|
  {
    if k :| k in Under(keys, id) {
      SmallerSet(keys, Under(keys, id), k);
    }
  }

  /** What eviction never frees: the hidden entries and the unreached ones. */
  ghost function Stranded(d: Disk): Tree {
    Entries(d) - (VisibleKeys(d) - Unreached(VisibleKeys(d)))
  }

  /** The counter once all else is freed fits the budget. */
  ghost predicate StrandedFit(d: Disk, max: u64) {
    Recorded(d) - (Sum(d) - SumLens(Stranded(d))) <= max
  }

  lemma TerminatesStep(d: Disk, max: u64)
    ensures !OverBudget(d, max) ==> Terminates(d, max)
    ensures OverBudget(d, max) ==> (Terminates(d, max) <==> Terminates(Round(d, max), max))
  {
    hide Round, OverBudget;
    assert Rounds(d, max, 0) == d;
    if OverBudget(d, max) {
      var e := Round(d, max);
      if n: nat :| !OverBudget(Rounds(d, max, n), max) {
        assert n > 0 && Rounds(d, max, n) == Rounds(e, max, n - 1);
      }
      if n: nat :| !OverBudget(Rounds(e, max, n), max) {
        assert Rounds(d, max, n + 1) == Rounds(e, max, n);
      }
    }
  }

  /** A turn strikes off visible keys only. */
  lemma RoundKeys(d: Disk, max: u64)
    requires Safe(d) && OverBudget(d, max)
    ensures VisibleKeys(d) != {} && LastColon(Least(VisibleKeys(d))) >= 0
    ensures var gone := Under(VisibleKeys(d), DecodedId(Least(VisibleKeys(d))));
            && (Frees(d, OldestId(d).value) <==> gone != {})
            && VisibleKeys(Round(d, max)) == VisibleKeys(d) - gone
            && Entries(Round(d, max)) == Entries(d) - gone
  {
    hide Round, Safe, LastColon, VisibleKeys;
    SafeWellKeyed(d);
    RoundEffect(d, max);
    VisibleEntries(d);
    VisibleEntries(Round(d, max));
    hide OldestId;
    OldestKey(d);
    var k := Least(VisibleKeys(d));
    var id := OldestId(d).value;
    forall h | h in Entries(d) && CyclePrefix(id) <= h
      ensures Visible(h)
    {
      if !Visible(h) {
        DecodedIdIsVisible(k, h);
      }
    }
    var gone := Under(VisibleKeys(d), id);
    assert gone == set h | h in Entries(d) && CyclePrefix(id) <= h;
    assert Frees(d, id) <==> gone != {} by {
      assert forall h :: h in gone ==> h in Entries(d) && CyclePrefix(id) <= h;
    }
  }

  lemma VisibleEntries(d: Disk)
    ensures forall k :: k in VisibleKeys(d) <==> k in Entries(d) && Visible(k)
  {
    assert HIDDEN_PREFIX <= TOTAL_KEY;
  }

  lemma StrandedStays(d: Disk, max: u64)
    requires Safe(d) && OverBudget(d, max) && Frees(d, OldestId(d).value)
    ensures Unreached(VisibleKeys(Round(d, max))) == Unreached(VisibleKeys(d))
    ensures Stranded(Round(d, max)) == Stranded(d)
  {
    hide Round, Safe, LastColon, VisibleKeys, OldestId, OverBudget, Frees, Entries;
    RoundKeys(d, max);
    var vs := VisibleKeys(d);
    var gone := Under(vs, DecodedId(Least(vs)));
    UnderShrinks(vs, DecodedId(Least(vs)));
    var u := Unreached(vs - gone);
    assert u == Unreached(vs);
    assert Entries(d) - gone - (vs - gone - u) == Entries(d) - (vs - u);
  }

  lemma StrandedBytes(d: Disk)
    ensures SumLens(Stranded(d)) <= Sum(d)
  {
    SumLensMinus(Entries(d), VisibleKeys(d) - Unreached(VisibleKeys(d)));
  }

  lemma FitStays(d: Disk, max: u64)
    requires Safe(d) && OverBudget(d, max) && Frees(d, OldestId(d).value)
    ensures StrandedFit(Round(d, max), max) <==> StrandedFit(d, max)
  {
    hide Round, Safe, OldestId, Frees, Entries, Sum, SumLens, Recorded, Stranded;
    RoundEffect(d, max);
    StrandedStays(d, max);
    StrandedBytes(d);
    StrandedBytes(Round(d, max));
  }

  /** The eviction loop ends if and only if every visible key is reached, or what eviction never frees
      fits the budget. Both can be read off the tree before the call. */
  lemma {:induction false} TerminatesIff(d: Disk, max: u64)
    requires Safe(d) && max > 0
    ensures Terminates(d, max) <==> Unreached(VisibleKeys(d)) == {} || StrandedFit(d, max)
    decreases |Entries(d).Keys|
  {
    hide Round, Safe, Terminates, OldestId, Frees, Entries, Stranded, SumLens, VisibleKeys, Recorded;
    TerminatesStep(d, max);
    StrandedBytes(d);
    if !OverBudget(d, max) {
      if Recorded(d) > max {
        NothingVisible(d);
      }
    } else if Frees(d, OldestId(d).value) {
      EntryCountShrinks(d, max);
      RoundEffect(d, max);
      TerminatesIff(Round(d, max), max);
      StrandedStays(d, max);
      FitStays(d, max);
    } else {
      RoundKeys(d, max);
      AllStranded(d);
      NeverEnds(d, max);
    }
  }

  lemma NothingVisible(d: Disk)
    requires Safe(d) && OldestId(d).None?
    ensures VisibleKeys(d) == {}
  {
    SafeWellKeyed(d);
    hide OldestId;
    OldestKey(d);
    VisibleEntries(d);
  }

  lemma AllStranded(d: Disk)
    requires Unreached(VisibleKeys(d)) == VisibleKeys(d)
    ensures Stranded(d) == Entries(d)
  {
  }

  /** On an exact counter the condition speaks of bytes alone. */
  lemma TerminatesIffExact(d: Disk, max: u64)
    requires Safe(d) && Exact(d) && max > 0
    ensures Terminates(d, max) <==> Unreached(VisibleKeys(d)) == {} || SumLens(Stranded(d)) <= max
  {
    hide Terminates, Unreached, Stranded, Safe;
    TerminatesIff(d, max);
  }
}
