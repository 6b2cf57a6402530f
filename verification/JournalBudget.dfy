/** What the byte budget comes to in every state, and how far stops can take the counter from the bytes. */
module JournalBudget {
  import opened Bytes
  import opened JournalDisk
  import opened JournalSafety
  import opened JournalEviction
  import opened JournalTermination
  import opened Trees
  import opened Writes

  /** The pending bytes that the counter does not know of. */
  ghost function Gap(d: Disk): int {
    Sum(d) - Recorded(d)
  }

  // ---- where eviction stops ----

  /** Whenever eviction ends: the counter meets the budget if and only if the hidden entries and what the
      counter lacks leave it room; and in bytes the budget is met up to the gap there was at the start,
      unless only hidden entries are left. */
  lemma {:induction false} BudgetMet(d: Disk, max: u64, n: nat)
    requires Safe(d) && max > 0
    requires !OverBudget(Rounds(d, max, n), max)
    ensures var e, hidden := Rounds(d, max, n), SumLens(HiddenEntries(d));
            && (Recorded(e) <= max <==> hidden - Gap(d) <= max)
            && 0 <= Gap(e) <= Gap(d)
            && hidden <= Sum(e) && (Sum(e) <= max + Gap(d) || Sum(e) == hidden)
  {
    hide Rounds, Safe, SumLens, OldestId, Recorded;
    var e := Rounds(d, max, n);
    RoundsSafe(d, max, n);
    RoundsKeepHidden(d, max, n);
    GapOfSafe(e);
    GapOfSafe(d);
    HiddenBytes(e);
    if Recorded(e) > max {
      AllHidden(e);
    }
  }

  lemma {:induction false} GapOfSafe(d: Disk)
    requires Safe(d)
    ensures Gap(d) >= 0
  {
  }

  lemma {:induction false} HiddenBytes(d: Disk)
    ensures SumLens(HiddenEntries(d)) <= Sum(d)
  {
    SumLensMinus(Entries(d), set k | k in Entries(d) && Visible(k));
  }

  lemma {:induction false} AllHidden(d: Disk)
    requires Safe(d) && OldestId(d).None?
    ensures HiddenEntries(d) == Entries(d)
  {
    SafeWellKeyed(d);
    hide OldestId;
    OldestKey(d);
    assert (set k | k in Entries(d) && Visible(k)) == {};
  }

  /** The budget is met in bytes, hidden entries apart, wherever eviction ends and whatever the budget. */
  ghost predicate MeetsEveryBudget(d: Disk) {
    forall max: u64, n: nat :: max > 0 && !OverBudget(Rounds(d, max, n), max) ==>
      Sum(Rounds(d, max, n)) <= max || Sum(Rounds(d, max, n)) == SumLens(HiddenEntries(d))
  }

  /** That is so exactly where the counter is exact, or all bytes are hidden, or there is at most one byte. */
  lemma {:induction false} MeetsEveryBudgetIff(d: Disk)
    requires Safe(d)
    ensures MeetsEveryBudget(d) <==> Exact(d) || Sum(d) == SumLens(HiddenEntries(d)) || Sum(d) <= 1
  {
    hide Rounds, Safe, SumLens, OldestId, Recorded, HiddenEntries;
    GapOfSafe(d);
    HiddenBytes(d);
    if Exact(d) || Sum(d) == SumLens(HiddenEntries(d)) || Sum(d) <= 1 {
      forall max: u64, n: nat | max > 0 && !OverBudget(Rounds(d, max, n), max)
        ensures Sum(Rounds(d, max, n)) <= max || Sum(Rounds(d, max, n)) == SumLens(HiddenEntries(d))
      {
        BudgetMet(d, max, n);
        RoundsSafe(d, max, n);
      }
    } else {
      var max: u64 := if Recorded(d) > 0 then Recorded(d) else 1;
      RoundsZero(d, max);
      assert max > 0 && !OverBudget(Rounds(d, max, 0), max);
    }
  }

  // ---- the budget that a journal has ----

  /** What is left of the visible keys after so many turns, each of which strikes off what the id decoded from
      the smallest covers. Budget and counter play no part. */
  function Struck(keys: set<Key>, turns: nat): (left: set<Key>)
    ensures left <= keys
    decreases turns
  {
    if turns == 0 || keys == {} || LastColon(Least(keys)) < 0 then keys
    else Struck(keys - Under(keys, DecodedId(Least(keys))), turns - 1)
  }

  ghost function LeftAfter(d: Disk, turns: nat): Tree {
    Entries(d) - (VisibleKeys(d) - Struck(VisibleKeys(d), turns))
  }

  /** The bytes that so many turns take. */
  ghost function Taken(d: Disk, turns: nat): int {
    Sum(d) - SumLens(LeftAfter(d, turns))
  }

  /** After some turn the counter is satisfied while the bytes are not, and there are visible bytes. */
  ghost predicate StopsShort(d: Disk, max: u64, turns: nat) {
    && Recorded(d) - max <= Taken(d, turns) < Sum(d) - max
    && Taken(d, turns) < Sum(d) - SumLens(HiddenEntries(d))
  }

  lemma {:induction false} StruckLess(keys: set<Key>, a: nat, b: nat)
    requires a <= b
    ensures Struck(keys, b) <= Struck(keys, a)
    decreases a
  {
    if !(a == 0 || keys == {} || LastColon(Least(keys)) < 0) {
      StruckLess(keys - Under(keys, DecodedId(Least(keys))), a - 1, b - 1);
    }
  }

  lemma {:induction false} TakenMore(d: Disk, a: nat, b: nat)
    requires a <= b
    ensures Taken(d, a) <= Taken(d, b)
  {
    hide Struck, SumLens, VisibleKeys;
    var vs := VisibleKeys(d);
    StruckLess(vs, a, b);
    assert LeftAfter(d, b) == LeftAfter(d, a) - (Struck(vs, a) - Struck(vs, b));
    SumLensMinus(LeftAfter(d, a), Struck(vs, a) - Struck(vs, b));
  }

  /** As long as the counter exceeds the budget the loop follows that course. */
  lemma {:induction false} FollowsCourse(d: Disk, max: u64, n: nat)
    requires Safe(d) && forall i: nat :: i < n ==> OverBudget(Rounds(d, max, i), max)
    ensures Entries(Rounds(d, max, n)) == LeftAfter(d, n)
    decreases n
  {
    hide Round, Safe, OverBudget, Entries, VisibleKeys, DecodedId, LastColon, Least;
    RoundsZero(d, max);
    if n > 0 {
      assert OverBudget(Rounds(d, max, 0), max);
      var e := Round(d, max);
      forall i: nat | i < n - 1
        ensures OverBudget(Rounds(e, max, i), max)
      {
        assert OverBudget(Rounds(d, max, i + 1), max);
      }
      RoundEffect(d, max);
      FollowsCourse(e, max, n - 1);
      RoundKeys(d, max);
      var vs := VisibleKeys(d);
      var gone := Under(vs, DecodedId(Least(vs)));
      CourseAfterOne(Entries(d), vs, gone, Struck(vs - gone, n - 1));
      assert Struck(vs, n) == Struck(vs - gone, n - 1);
    } else {
      assert Entries(d) - (VisibleKeys(d) - Struck(VisibleKeys(d), 0)) == Entries(d);
    }
  }

  lemma {:induction false} CourseAfterOne(t: Tree, vs: set<Key>, gone: set<Key>, left: set<Key>)
    requires gone <= vs && left <= vs - gone
    ensures t - gone - (vs - gone - left) == t - (vs - left)
  {
  }

  /** The turn in which the loop ends. */
  lemma {:induction false} LastTurn(d: Disk, max: u64, n: nat) returns (k: nat)
    requires !OverBudget(Rounds(d, max, n), max)
    ensures k <= n && Rounds(d, max, k) == Rounds(d, max, n)
    ensures forall i: nat :: i < k ==> OverBudget(Rounds(d, max, i), max)
    decreases n
  {
    hide OverBudget, Round;
    RoundsZero(d, max);
    if !OverBudget(d, max) {
      NoMoreTurns(d, max, 0, n);
      k := 0;
    } else {
      var e := Round(d, max);
      var j := LastTurn(e, max, n - 1);
      k := j + 1;
      forall i: nat | i < k
        ensures OverBudget(Rounds(d, max, i), max)
      {
        if i > 0 {
          assert OverBudget(Rounds(e, max, i - 1), max);
        }
      }
    }
  }

  /** For the budget at hand: where eviction has ended, the bytes exceed it although visible bytes are left if
      and only if the course stops short of it at some turn. That can be read off the tree before the call. */
  lemma {:induction false} BudgetMissedIff(d: Disk, max: u64, n: nat)
    requires Safe(d) && max > 0
    requires !OverBudget(Rounds(d, max, n), max)
    ensures var e := Rounds(d, max, n);
            Sum(e) > max && Sum(e) != SumLens(HiddenEntries(d)) <==> exists k :: StopsShort(d, max, k)
  {
    hide Rounds, Safe, SumLens, OldestId, Recorded, HiddenEntries, LeftAfter;
    var k := LastTurn(d, max, n);
    var e := Rounds(d, max, k);
    FollowsCourse(d, max, k);
    RoundsSafe(d, max, k);
    BudgetMet(d, max, n);
    HiddenLeft(d, max, k);
    assert Sum(e) == Sum(d) - Taken(d, k);
    if Sum(e) > max && Sum(e) != SumLens(HiddenEntries(d)) {
      assert StopsShort(d, max, k);
    }
    if j: nat :| StopsShort(d, max, j) {
      if k <= j {
        TakenMore(d, k, j);
      } else {
        NotShortBefore(d, max, j);
      }
    }
  }

  lemma {:induction false} HiddenLeft(d: Disk, max: u64, n: nat)
    requires Safe(d)
    ensures var e := Rounds(d, max, n);
            !OverBudget(e, max) && Recorded(e) > max > 0 ==> Sum(e) == SumLens(HiddenEntries(d))
  {
    hide Rounds, Safe, SumLens, OldestId, Recorded, HiddenEntries;
    RoundsSafe(d, max, n);
    RoundsKeepHidden(d, max, n);
    var e := Rounds(d, max, n);
    if !OverBudget(e, max) && Recorded(e) > max > 0 {
      AllHidden(e);
    }
  }

  /** Where the loop goes on, the counter is not yet satisfied. */
  lemma {:induction false} NotShortBefore(d: Disk, max: u64, j: nat)
    requires Safe(d) && max > 0
    requires forall i: nat :: i <= j ==> OverBudget(Rounds(d, max, i), max)
    ensures !StopsShort(d, max, j)
  {
    hide Rounds, Safe, SumLens, OldestId, Recorded, HiddenEntries, LeftAfter;
    FollowsCourse(d, max, j);
    RoundsSafe(d, max, j);
    assert OverBudget(Rounds(d, max, j), max);
  }

  // ---- how a stop widens the gap ----

  /** No pending payload is longer than `m`. */
  ghost predicate Small(d: Disk, m: nat) {
    forall k :: k in Entries(d) ==> |d.pending[k]| <= m
  }

  lemma {:induction false} LoweredGap(d: Disk, d': Disk)
    requires Safe(d) && Lowered(d, d')
    ensures Gap(d') <= Gap(d)
  {
    hide Sum, Recorded;
  }

  lemma {:induction false} SameGap(d: Disk, d': Disk)
    requires d'.pending == d.pending
    ensures Gap(d') == Gap(d)
  {
    assert Entries(d') == Entries(d);
    SamePendingSameCounter(d, d');
  }

  lemma {:induction false} ShrunkSmall(d: Disk, d': Disk, m: nat)
    requires Small(d, m) && forall k :: k in Entries(d') ==> k in Entries(d) && d'.pending[k] == d.pending[k]
    ensures Small(d', m)
  {
  }

  lemma {:induction false} ShrunkSum(d: Disk, d': Disk)
    requires forall k :: k in Entries(d') ==> k in Entries(d) && d'.pending[k] == d.pending[k]
    ensures Sum(d') <= Sum(d)
  {
    hide SumLens;
    var gone := Entries(d).Keys - Entries(d').Keys;
    assert Entries(d') == Entries(d) - gone;
    SumLensMinus(Entries(d), gone);
  }

  /** Between the two writes that free an entry the counter is behind by that entry at most. */
  lemma {:induction false} CounterFirst(d: Disk, k: Key, m: nat)
    requires Safe(d) && k in Entries(d) && Small(d, m)
    ensures var d1 := Apply(d, AddTotal(d, -|d.pending[k]|));
            var d2 := Apply(d1, DelPending(k));
            Gap(d1) <= Gap(d) + m && Gap(d2) <= Gap(d) && Small(d2, m)
  {
    hide Safe, SumLens, Be64, FromBe64;
    DropOne(d, k);
    SafeCounter(d);
    AddTotalEffect(d, -|d.pending[k]|);
    var d1 := Apply(d, AddTotal(d, -|d.pending[k]|));
    LoweredGap(d, Apply(d1, DelPending(k)));
    ShrunkByOne(d, k, [k]);
  }

  lemma {:induction false} SafeCounter(d: Disk)
    requires Safe(d)
    ensures Recorded(d) < I64_LIMIT
  {
  }

  lemma {:induction false} DropGap(d: Disk, keys: seq<Key>, cut: nat, m: nat)
    requires Safe(d) && DropList(d, keys) && Small(d, m)
    requires cut <= |DropWrites(d, keys)|
    ensures Gap(ApplyAll(d, DropWrites(d, keys)[..cut], Apply)) <= Gap(d) + m
    decreases |keys|
  {
    hide Be64, FromBe64, DropWrites, ApplyAll, Safe, Entries, DropList, Gap, Small;
    if keys == [] {
      DropNone(d);
      assert DropWrites(d, keys)[..cut] == [];
    } else {
      DropHead(d, keys);
      var k := keys[0];
      var w := AddTotal(d, -|d.pending[k]|);
      var all := DropWrites(d, keys);
      var d2 := Apply(Apply(d, w), DelPending(k));
      CounterFirst(d, k, m);
      DropUnfold(d, keys);
      if cut == 0 {
        assert all[..cut] == [];
        ApplyNone(d, Apply);
      } else if cut == 1 {
        assert all[..cut] == [w];
        ApplyOne(d, w, Apply);
      } else {
        var rest := DropWrites(d2, keys[1..])[..cut - 2];
        assert all[..cut] == [w, DelPending(k)] + rest;
        ApplyTwo(d, w, DelPending(k), Apply);
        ApplyAllConcat(d, [w, DelPending(k)], rest, Apply);
        DropGap(d2, keys[1..], cut - 2, m);
      }
    }
  }

  /** A stopped acknowledgement leaves the counter behind by one entry at most, a finished one not at all. */
  lemma {:induction false} AckGap(d: Disk, id: Key, cut: nat, m: nat)
    requires Safe(d) && Small(d, m) && cut <= |AckInnerWrites(d, id)|
    ensures var d' := ApplyAll(d, AckInnerWrites(d, id)[..cut], Apply);
            && Small(d', m) && Sum(d') <= Sum(d)
            && Gap(d') <= Gap(d) + (if cut < |AckInnerWrites(d, id)| then m else 0)
  {
    hide DropWrites, ApplyAll, Safe, Scan, Gap, Small, Entries;
    AckSafe(d, id, cut);
    ShrunkSmall(d, ApplyAll(d, AckInnerWrites(d, id)[..cut], Apply), m);
    ShrunkSum(d, ApplyAll(d, AckInnerWrites(d, id)[..cut], Apply));
    ScanIsDropList(d, id);
    var keys := Scan(d.pending, CyclePrefix(id));
    var drop, all := DropWrites(d, keys), AckInnerWrites(d, id);
    if cut <= |drop| {
      assert all[..cut] == drop[..cut];
      DropGap(d, keys, cut, m);
    } else {
      var d1 := ApplyAll(d, drop, Apply);
      var tail := [PutAcked(id), DelCompleted(id)][..cut - |drop|];
      assert all[..cut] == drop + tail;
      ApplyAllConcat(d, drop, tail, Apply);
      ApplyOne(d1, PutAcked(id), Apply);
      ApplyTwo(d1, PutAcked(id), DelCompleted(id), Apply);
      assert tail == if cut == |drop| + 1 then [PutAcked(id)] else [PutAcked(id), DelCompleted(id)];
      DropEffect(d, keys);
      LoweredGap(d, d1);
      SameGap(d1, ApplyAll(d, all[..cut], Apply));
    }
  }

  /** An append that is stopped between its entry and the counter leaves the counter behind by its payload. */
  lemma {:induction false} AppendGap(d: Disk, id: Key, p: Payload, cut: nat, n: int, m: nat)
    requires Safe(d) && NextAtMost(d, n) && n + 1 < U64_LIMIT && Small(d, m) && |p| <= m
    requires Recorded(d) + |p| < I64_LIMIT && cut <= |AppendWrites(d, id, p)|
    ensures var d' := ApplyAll(d, AppendWrites(d, id, p)[..cut], Apply);
            && Small(d', m) && Sum(d') <= Sum(d) + |p|
            && Gap(d') <= Gap(d) + (if cut < |AppendWrites(d, id, p)| then m else 0)
            && (cut == |AppendWrites(d, id, p)| - 1 ==> Gap(d') == Gap(d) + |p|)
  {
    hide AppendWrites, ApplyAll, Safe, NextAtMost, SumLens, Be64, FromBe64, Next;
    AppendPrefix(d, id, p, cut);
    NumberedEffect(d, id, n);
    StowedEffect(d, id, p, n);
    AppendEffect(d, id, p, n);
    SameGap(d, Unacked(d, id));
    SameGap(d, Numbered(d, id));
    SafeCounter(d);
    AddTotalEffect(Stowed(d, id, p), |p|);
  }

  /** A finished append leaves the gap as it was, unless the counter overflows. */
  lemma {:induction false} FinishedAppendGap(d: Disk, id: Key, p: Payload, n: int)
    requires Safe(d) && NextAtMost(d, n) && n + 1 < U64_LIMIT && Recorded(d) + |p| < I64_LIMIT
    ensures Gap(ApplyAll(d, AppendWrites(d, id, p), Apply)) == Gap(d)
  {
    hide AppendWrites, ApplyAll, Safe, NextAtMost, SumLens, Be64, FromBe64, Next;
    StowedEffect(d, id, p, n);
    AppendEffect(d, id, p, n);
    AddTotalEffect(Stowed(d, id, p), |p|);
  }

  // ---- over runs ----

  ghost predicate Stopped(d: Disk, max: u64, s: Step) {
    s.cut < |EventWrites(d, max, s.event)|
  }

  ghost function Stops(max: u64, steps: seq<Step>): nat {
    if steps == [] then 0
    else
      var front := steps[..|steps| - 1];
      Stops(max, front) + if Stopped(Run(EMPTY_DISK, max, front), max, steps[|steps| - 1]) then 1 else 0
  }

  /** All bytes that any append was called with. */
  ghost function Called(steps: seq<Step>): nat {
    if steps == [] then 0
    else
      var e := steps[|steps| - 1].event;
      Called(steps[..|steps| - 1]) + if e.Append? then |e.payload| else 0
  }

  ghost predicate SmallAppends(steps: seq<Step>, m: nat) {
    forall i :: 0 <= i < |steps| && steps[i].event.Append? ==> |steps[i].event.payload| <= m
  }

  lemma {:induction false} StepGap(d: Disk, max: u64, s: Step, n: int, m: nat)
    requires Safe(d) && NextAtMost(d, n) && Small(d, m)
    requires s.event.Append? ==> n + 1 < U64_LIMIT && |s.event.payload| <= m && Sum(d) + |s.event.payload| < I64_LIMIT
    ensures var d' := After(d, max, s);
            && Small(d', m) && Sum(d') <= Sum(d) + (if s.event.Append? then |s.event.payload| else 0)
            && Gap(d') <= Gap(d) + (if Stopped(d, max, s) then m else 0)
  {
    hide ApplyAll, AckInnerWrites, AppendWrites, Small, Sum, NextAtMost, Be64, FromBe64;
    var ws := EventWrites(d, max, s.event);
    var cut := if s.cut < |ws| then s.cut else |ws|;
    assert Prefix(ws, s.cut) == ws[..cut];
    ApplyNone(d, Apply);
    match s.event {
      case Append(id, p) => AppendGap(d, id, p, cut, n, m);
      case Ack(id) =>
        if id !in d.acked {
          AckGap(d, id, cut, m);
        }
      case EvictRound =>
        if OverBudget(d, max) {
          AckGap(d, OldestId(d).value, cut, m);
        }
      case Complete(id) =>
        ApplyOne(d, PutCompleted(id), Apply);
        assert ws[..cut] == [] || ws[..cut] == ws;
        var d' := After(d, max, s);
        SameGap(d, d');
        SameSum(d, d');
        ShrunkSmall(d, d', m);
    }
  }

  lemma {:induction false} SameSum(d: Disk, d': Disk)
    requires d'.pending == d.pending
    ensures Sum(d') == Sum(d) && Entries(d') == Entries(d)
  {
  }

  /** Over every run, stopped anywhere, of appends of at most `m` bytes each: the counter lacks at most `m`
      bytes per stop. */
  lemma {:induction false} GapBounded(max: u64, steps: seq<Step>, m: nat)
    requires Appends(steps) < U64_LIMIT && Called(steps) < I64_LIMIT
    requires SmallAppends(steps, m)
    ensures var d := Run(EMPTY_DISK, max, steps);
            && Small(d, m) && Sum(d) <= Called(steps)
            && 0 <= Gap(d) <= m * Stops(max, steps)
    decreases |steps|
  {
    if steps == [] {
      NothingPending();
    } else {
      hide Run, Safe, NextAtMost, Gap, Small, Sum, Stops, Called, Appends, SmallAppends;
      var front, last := steps[..|steps| - 1], steps[|steps| - 1];
      assert steps == front + [last];
      CountsSnoc(max, front, last, m);
      GapBounded(max, front, m);
      GapMore(max, front, last, m);
    }
  }

  lemma {:induction false} CountsSnoc(max: u64, front: seq<Step>, last: Step, m: nat)
    ensures var more := if last.event.Append? then |last.event.payload| else 0;
            && Called(front + [last]) == Called(front) + more
            && Appends(front + [last]) == Appends(front) + (if last.event.Append? then 1 else 0)
            && (SmallAppends(front + [last], m) ==> SmallAppends(front, m) && more <= m)
    ensures Stops(max, front + [last]) ==
            Stops(max, front) + if Stopped(Run(EMPTY_DISK, max, front), max, last) then 1 else 0
  {
    hide Run, Stopped;
    var steps := front + [last];
    assert steps[..|front|] == front && steps[|front|] == last;
    if SmallAppends(steps, m) {
      forall i | 0 <= i < |front| && front[i].event.Append?
        ensures |front[i].event.payload| <= m
      {
        assert steps[i] == front[i];
      }
    }
  }

  lemma {:induction false} GapMore(max: u64, front: seq<Step>, last: Step, m: nat)
    requires Appends(front + [last]) < U64_LIMIT && Called(front + [last]) < I64_LIMIT
    requires SmallAppends(front + [last], m)
    requires var d := Run(EMPTY_DISK, max, front);
             Small(d, m) && Sum(d) <= Called(front) && 0 <= Gap(d) <= m * Stops(max, front)
    ensures var d := Run(EMPTY_DISK, max, front + [last]);
            Small(d, m) && Sum(d) <= Called(front + [last]) && 0 <= Gap(d) <= m * Stops(max, front + [last])
  {
    hide Run, After, Safe, NextAtMost, Gap, Small, Stopped, Sum, Stops, Called, Appends, SmallAppends;
    CountsSnoc(max, front, last, m);
    CrashSafety(max, front);
    StepGap(Run(EMPTY_DISK, max, front), max, last, Appends(front), m);
    RunLast(EMPTY_DISK, max, front, last);
    CrashSafety(max, front + [last]);
    GapOfSafe(Run(EMPTY_DISK, max, front + [last]));
    OneMoreStop(m, Stops(max, front));
  }

  lemma {:induction false} NothingPending()
    ensures Entries(EMPTY_DISK) == map[] && Sum(EMPTY_DISK) == 0 && Recorded(EMPTY_DISK) == 0
  {
    assert Entries(EMPTY_DISK) == map[];
    SumLensEmpty();
  }

  lemma {:induction false} OneMoreStop(m: nat, n: nat)
    ensures m * (n + 1) == m * n + m
  {
  }

  /** Whenever eviction ends after any such run, the pending bytes exceed the budget by at most `m` per stop,
      unless only hidden entries are left. */
  lemma {:induction false} BudgetAfterStops(max: u64, steps: seq<Step>, m: nat, n: nat)
    requires Appends(steps) < U64_LIMIT && Called(steps) < I64_LIMIT && max > 0
    requires SmallAppends(steps, m)
    requires !OverBudget(Rounds(Run(EMPTY_DISK, max, steps), max, n), max)
    ensures var d := Run(EMPTY_DISK, max, steps);
            var e := Rounds(d, max, n);
            Sum(e) <= max + m * Stops(max, steps) || Sum(e) == SumLens(HiddenEntries(d))
  {
    hide Run, Rounds, Safe, NextAtMost, SumLens, OverBudget, HiddenEntries, Small, Stops, Gap;
    CrashSafety(max, steps);
    GapBounded(max, steps, m);
    BudgetMet(Run(EMPTY_DISK, max, steps), max, n);
  }
}
