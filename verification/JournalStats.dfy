/** What the counters count, said of the keys byte by byte. */
module JournalStats {
  import opened Bytes
  import opened Sorting
  import opened JournalDisk
  import opened JournalSafety
  import opened JournalView
  import opened Trees
  import opened Wrappers
  import Utf8

  /** A key that does not start with "__" and has a colon in it. */
  predicate Counts(k: Key) {
    !(|k| >= 2 && k[0] == 0x5F && k[1] == 0x5F) && 0x3A in k
  }

  ghost function Counted(d: Disk): set<Key> {
    set k | k in d.pending && Counts(k)
  }

  /** What a key holds before its last colon, as text. */
  function TextOf(k: Key): Key {
    if LastColon(k) < 0 then [] else Utf8.Lossy(k[..LastColon(k)])
  }

  /** Another text begins here than the one before. */
  predicate StartsAt(l: seq<Key>, i: int)
    requires 0 <= i < |l|
  {
    i == 0 || TextOf(l[i]) != TextOf(l[i - 1])
  }

  ghost function Starts(l: seq<Key>): set<int> {
    set i | 0 <= i < |l| && StartsAt(l, i)
  }

  lemma {:induction false} StartsSnoc(l: seq<Key>, k: Key)
    ensures var starts := l == [] || TextOf(k) != TextOf(l[|l| - 1]);
            && Starts(l + [k]) == Starts(l) + (if starts then {|l|} else {})
            && |Starts(l + [k])| == |Starts(l)| + if starts then 1 else 0
  {
    hide TextOf;
    assert forall i :: 0 <= i < |l| ==> (StartsAt(l + [k], i) <==> StartsAt(l, i));
    assert |l| !in Starts(l);
  }

  lemma CountedIdIs(k: Key)
    ensures CountedId(k) == if Counts(k) then Some(TextOf(k)) else None
  {
    hide Utf8.Lossy;
    assert HIDDEN_PREFIX <= k <==> |k| >= 2 && k[0] == 0x5F && k[1] == 0x5F;
  }

  ghost function CountOf(l: seq<Key>): Tallied {
    Tallied(|Starts(l)|, |l|, if l == [] then None else Some(TextOf(l[|l| - 1])))
  }

  lemma {:induction false} CountMore(l: seq<Key>, k: Key)
    ensures TallyStep(CountOf(l), k) == if Counts(k) then CountOf(l + [k]) else CountOf(l)
  {
    hide Counts, TextOf, Starts, CountedId;
    StartsSnoc(l, k);
    CountedIdIs(k);
  }

  lemma {:induction false} TallyOf(keys: seq<Key>)
    ensures Tally(keys) == CountOf(Filter(keys, Counts))
    decreases |keys|
  {
    if keys == [] {
      assert Starts([]) == {};
    } else {
      hide Counts, CountOf, Filter, Tally, TallyStep;
      var front, k := keys[..|keys| - 1], keys[|keys| - 1];
      assert keys == front + [k];
      TallyOf(front);
      TallySnoc(front, k);
      FilterSnoc(front, k, Counts);
      CountMore(Filter(front, Counts), k);
      assert Filter(front, Counts) + [] == Filter(front, Counts);
    }
  }

  lemma {:induction false} FilteredListing(all: set<Key>, part: set<Key>)
    requires forall k :: k in part <==> k in all && Counts(k)
    ensures Filter(Ascending(all), Counts) == Ascending(part)
  {
    hide Ascending, Filter, Counts;
    AscendingPart(all, part);
    FilterSame(Ascending(all), Counts, In(part));
  }

  /** For every disk: the entry counter is the number of keys that are not hidden and have a colon, and the cycle
      counter the number of places in their order where the text before the last colon changes. */
  lemma {:induction false} StatsExact(d: Disk)
    ensures StatsOf(d).entries == |Counted(d)|
    ensures StatsOf(d).cycles == |Starts(Ascending(Counted(d)))|
  {
    hide Ascending, Filter, Counts, Tally, Starts;
    TallyOf(Ascending(d.pending.Keys));
    FilteredListing(d.pending.Keys, Counted(d));
  }

  /** Where all keys are entries, all visible ones are counted. */
  lemma {:induction false} CountedEntries(d: Disk)
    requires WellKeyed(d)
    ensures Counted(d) == VisibleKeys(d)
    ensures forall k :: k in Counted(d) <==> k in Entries(d) && !(|k| >= 2 && k[0] == 0x5F && k[1] == 0x5F)
  {
    forall k | k in d.pending
      ensures Visible(k) <==> !(|k| >= 2 && k[0] == 0x5F && k[1] == 0x5F)
      ensures Visible(k) ==> k in Entries(d) && 0x3A in k
    {
      assert HIDDEN_PREFIX <= k <==> |k| >= 2 && k[0] == 0x5F && k[1] == 0x5F;
      assert HIDDEN_PREFIX <= TOTAL_KEY;
      if Visible(k) {
        assert IsEntryKey(k) && k[|k| - 9] == 0x3A;
      }
    }
  }

  /** After every run, stopped anywhere: the counters report all visible entries, listed or not. */
  lemma {:induction false} RunStats(max: u64, steps: seq<Step>)
    requires Appends(steps) < U64_LIMIT
    ensures var d := Run(EMPTY_DISK, max, steps);
            && StatsOf(d).entries == |VisibleKeys(d)|
            && StatsOf(d).cycles == |Starts(Ascending(VisibleKeys(d)))|
            && StatsOf(d).bytes <= Sum(d)
  {
    hide Ascending, Starts, Counted, Safe, Run, Recorded, VisibleKeys;
    var d := Run(EMPTY_DISK, max, steps);
    CrashSafety(max, steps);
    StatsExact(d);
    SafeKeys(d);
    CountedEntries(d);
  }

  lemma SafeKeys(d: Disk)
    requires Safe(d)
    ensures WellKeyed(d) && StatsOf(d).bytes <= Sum(d)
  {
  }
}
