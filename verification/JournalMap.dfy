/** The journal as a map from cycles to payloads, with a byte budget: an abstract machine that knows nothing of
    keys, numbers or counters, and that short cycles with plain ids never leave. */
module JournalMap {
  import opened Bytes
  import opened Sorting
  import opened JournalDisk
  import opened JournalSafety
  import opened JournalEviction
  import opened JournalTermination
  import opened JournalView
  import opened JournalHistory
  import opened Trees
  import opened Writes

  // ---- the machine ----

  type View = map<Key, seq<Payload>>

  function Get(v: View, id: Key): seq<Payload> {
    if id in v then v[id] else []
  }

  function Length(l: seq<Payload>): nat {
    if l == [] then 0 else Length(l[..|l| - 1]) + |l[|l| - 1]|
  }

  /** The bytes that all cycles hold. */
  ghost function Weight(v: View): nat
    decreases |v.Keys|
  {
    if v.Keys == {} then 0
    else
      var id :| id in v;
      assert (v - {id}).Keys == v.Keys - {id};
      Length(v[id]) + Weight(v - {id})
  }

  function VisibleIds(v: View): set<Key> {
    set id | id in v && !(HIDDEN_PREFIX <= id)
  }

  /** The visible cycle whose name, closed by a colon, comes first in byte order. */
  ghost predicate IsVictim(v: View, id: Key) {
    id in VisibleIds(v) && forall x :: x in VisibleIds(v) ==> Le(CyclePrefix(id), CyclePrefix(x))
  }

  ghost predicate Evictable(v: View, max: u64) {
    max > 0 && Weight(v) > max && VisibleIds(v) != {}
  }

  /** An append adds at the end of its cycle, an acknowledgement clears its cycle, and a turn of eviction clears
      the victim while the whole weighs more than the budget. */
  ghost predicate ViewStep(v: View, max: u64, e: Event, v': View) {
    match e
    case Append(id, p) => v' == v[id := Get(v, id) + [p]]
    case Ack(id) => v' == v - {id}
    case EvictRound => if Evictable(v, max) then exists id :: IsVictim(v, id) && v' == v - {id} else v' == v
    case Complete(_) => v' == v
  }

  /** `v` is where the machine gets from the empty map. */
  ghost predicate Reaches(max: u64, events: seq<Event>, v: View) {
    if events == [] then v == map[]
    else
      var front := events[..|events| - 1];
      exists u :: Reaches(max, front, u) && ViewStep(u, max, events[|events| - 1], v)
  }

  /** The machine is deterministic: there is one victim. */
  lemma {:induction false} VictimUnique(v: View, a: Key, b: Key)
    requires IsVictim(v, a) && IsVictim(v, b)
    ensures a == b
  {
    hide Lt;
    LtTotal(CyclePrefix(a), CyclePrefix(b));
    assert CyclePrefix(a)[..|a|] == a && CyclePrefix(b)[..|b|] == b;
  }

  lemma {:induction false} ReachesOne(max: u64, events: seq<Event>, v: View, w: View)
    requires Reaches(max, events, v) && Reaches(max, events, w)
    ensures v == w
    decreases |events|
  {
    if events != [] {
      hide Evictable, IsVictim;
      var front, e := events[..|events| - 1], events[|events| - 1];
      var u :| Reaches(max, front, u) && ViewStep(u, max, e, v);
      var x :| Reaches(max, front, x) && ViewStep(x, max, e, w);
      ReachesOne(max, front, u, x);
      if e.EvictRound? && Evictable(u, max) {
        var a :| IsVictim(u, a) && v == u - {a};
        var b :| IsVictim(u, b) && w == u - {b};
        VictimUnique(u, a, b);
      }
    }
  }

  // ---- weight ----

  lemma {:induction false} WeightRemove(v: View, id: Key)
    requires id in v
    ensures Weight(v) == Length(v[id]) + Weight(v - {id})
    decreases |v.Keys|
  {
    var c :| c in v && Weight(v) == Length(v[c]) + Weight(v - {c});
    hide Weight;
    if c != id {
      assert (v - {c}).Keys == v.Keys - {c};
      WeightRemove(v - {c}, id);
      assert (v - {id}).Keys == v.Keys - {id};
      WeightRemove(v - {id}, c);
      assert v - {c} - {id} == v - {id} - {c};
    }
  }

  lemma {:induction false} WeightAppend(v: View, id: Key, p: Payload)
    ensures Weight(v[id := Get(v, id) + [p]]) == Weight(v) + |p|
  {
    hide Weight;
    var w := v[id := Get(v, id) + [p]];
    WeightRemove(w, id);
    assert w - {id} == v - {id};
    assert (Get(v, id) + [p])[..|Get(v, id)|] == Get(v, id);
    if id in v {
      WeightRemove(v, id);
    } else {
      assert v - {id} == v;
    }
  }

  lemma {:induction false} WeightWithout(v: View, id: Key)
    ensures Weight(v) == Length(Get(v, id)) + Weight(v - {id})
  {
    hide Weight;
    if id in v {
      WeightRemove(v, id);
    } else {
      assert v - {id} == v;
    }
  }

  function ValuesOf(t: Tree, keys: seq<Key>): seq<Payload>
    requires forall i :: 0 <= i < |keys| ==> keys[i] in t
  {
    seq(|keys|, i requires 0 <= i < |keys| => t[keys[i]])
  }

  /** The bytes under a list of different keys. */
  lemma {:induction false} SumOfKeys(t: Tree, keys: seq<Key>)
    requires forall i :: 0 <= i < |keys| ==> keys[i] in t
    requires forall i, j :: 0 <= i < j < |keys| ==> keys[i] != keys[j]
    ensures SumLens(t) == SumLens(t - (set k | k in keys)) + Length(ValuesOf(t, keys))
    decreases |keys|
  {
    hide SumLens;
    if keys == [] {
      assert t - (set k | k in keys) == t;
    } else {
      var front, last := keys[..|keys| - 1], keys[|keys| - 1];
      var u := t - {last};
      SumLensRemove(t, last);
      SumOfKeys(u, front);
      assert ValuesOf(t, keys)[..|front|] == ValuesOf(u, front);
      assert keys == front + [last];
      assert u - (set k | k in front) == t - (set k | k in keys);
    }
  }

  /** The bytes of a cycle are those of its backlog. */
  lemma {:induction false} SumOfCycle(d: Disk, id: Key)
    ensures Sum(d) == SumLens(Entries(d) - CycleKeys(d, id)) + Length(Payloads(Backlog(d, id)))
  {
    hide SumLens, Ascending, StrictlyAscending, IsEntryKey, KeyId, KeySeq;
    var keys := Ascending(CycleKeys(d, id));
    EntriesKeys(d);
    forall i | 0 <= i < |keys|
      ensures keys[i] in CycleKeys(d, id)
    {
      assert keys[i] in keys;
    }
    KeysDiffer(keys);
    SumOfKeys(Entries(d), keys);
    assert (set k | k in keys) == CycleKeys(d, id);
    assert Payloads(Backlog(d, id)) == ValuesOf(Entries(d), keys);
  }

  lemma {:induction false} KeysDiffer(keys: seq<Key>)
    ensures StrictlyAscending(keys) ==> forall i, j :: 0 <= i < j < |keys| ==> keys[i] != keys[j]
  {
    forall i, j | StrictlyAscending(keys) && 0 <= i < j < |keys|
      ensures keys[i] != keys[j]
    {
      LtIrreflexive(keys[i]);
    }
  }

  // ---- the disk and the machine ----

  ghost predicate Matches(d: Disk, v: View) {
    && (forall id :: Get(v, id) == Payloads(Backlog(d, id)))
    && (forall id :: id in v ==> v[id] != [])
    && Weight(v) == Sum(d)
  }

  /** The name of a colon-free cycle and a colon decide the order of all keys that start with them. */
  lemma {:induction false} NamesDecide(c: Key, a: Key, x: Key, b: Key)
    requires COLON !in c && COLON !in x && c != x
    ensures Lt(CyclePrefix(c) + a, CyclePrefix(x) + b) <==> Lt(CyclePrefix(c), CyclePrefix(x))
    decreases |c|
  {
    if c != [] && x != [] && c[0] == x[0] {
      var p, q := CyclePrefix(c), CyclePrefix(x);
      assert p[1..] == CyclePrefix(c[1..]) && q[1..] == CyclePrefix(x[1..]);
      assert (p + a)[1..] == p[1..] + a && (q + b)[1..] == q[1..] + b;
      HeadAndTail(c, x);
      NamesDecide(c[1..], a, x[1..], b);
    }
  }

  lemma {:induction false} HeadAndTail(c: Key, x: Key)
    requires c != [] && x != []
    ensures c == x <==> c[0] == x[0] && c[1..] == x[1..]
  {
    if c[0] == x[0] && c[1..] == x[1..] {
      assert c == [c[0]] + c[1..] && x == [x[0]] + x[1..];
    }
  }

  lemma {:induction false} HasEntryIff(d: Disk, id: Key)
    ensures Backlog(d, id) != [] <==> exists s :: PendingKey(id, s) in d.pending
  {
    hide Backlog, Be64, PendingKey;
    BacklogContents(d, id);
    if Backlog(d, id) != [] {
      var e := Backlog(d, id)[0];
      assert e in Backlog(d, id);
      assert PendingKey(id, e.s) in d.pending;
    }
    if s :| PendingKey(id, s) in d.pending {
      assert Holds(d, id, CycleEntry(s, d.pending[PendingKey(id, s)]));
    }
  }

  lemma {:induction false} VisibleIff(d: Disk, v: View, id: Key)
    requires Matches(d, v)
    ensures id in VisibleIds(v) <==> exists s :: PendingKey(id, s) in VisibleKeys(d)
  {
    hide Backlog, Be64, PendingKey, Weight, Sum, VisibleKeys;
    HasEntryIff(d, id);
    VisibleEntries(d);
    assert |Payloads(Backlog(d, id))| == |Backlog(d, id)|;
    forall s
      ensures PendingKey(id, s) in VisibleKeys(d) <==> PendingKey(id, s) in d.pending && !(HIDDEN_PREFIX <= id)
    {
      KeyVisible(id, s);
      PendingKeyParts(id, s);
      EntriesKeys(d);
    }
  }

  lemma {:induction false} GuardsAgree(d: Disk, v: View, max: u64)
    requires Safe(d) && Exact(d) && Matches(d, v)
    ensures OverBudget(d, max) <==> Evictable(v, max)
  {
    hide Backlog, Weight, Sum, VisibleKeys, OldestId, Be64, Recorded, SumLens, VisibleIds, PendingKey;
    SafeWellKeyed(d);
    OldestKey(d);
    VisibleEntries(d);
    if k :| k in Entries(d) && Visible(k) {
      PendingKeyOfParts(k);
      VisibleIff(d, v, KeyId(k));
    }
    if id :| id in VisibleIds(v) {
      VisibleIff(d, v, id);
    }
  }

  lemma {:induction false} OwnerIsVictim(d: Disk, v: View, max: u64)
    requires Safe(d) && PlainDisk(d) && Matches(d, v) && OverBudget(d, max)
    ensures VisibleKeys(d) != {} && IsEntryKey(Least(VisibleKeys(d))) && IsVictim(v, KeyId(Least(VisibleKeys(d))))
  {
    hide Backlog, Weight, Sum, VisibleKeys, OldestId, Be64, FromBe64, Recorded, Lt, PendingKey, Matches, VisibleIds;
    OldestParts(d, max);
    VisibleEntries(d);
    var k := Least(VisibleKeys(d));
    var c := KeyId(k);
    VisibleIff(d, v, c);
    forall x | x in VisibleIds(v)
      ensures Le(CyclePrefix(c), CyclePrefix(x))
    {
      VisibleIff(d, v, x);
      var t :| PendingKey(x, t) in VisibleKeys(d);
      PendingKeyParts(x, t);
      assert Le(k, PendingKey(x, t));
      if x != c {
        NamesInKeys(c, KeySeq(k), x, t);
      }
    }
  }

  lemma {:induction false} NamesInKeys(c: Key, s: u64, x: Key, t: u64)
    requires COLON !in c && COLON !in x && c != x && Le(PendingKey(c, s), PendingKey(x, t))
    ensures Lt(CyclePrefix(c), CyclePrefix(x))
  {
    hide Be64, Lt;
    PendingKeyInjective(c, s, x, t);
    NamesDecide(c, Be64(s), x, Be64(t));
  }

  /** Clearing a cycle on the disk is clearing it in the map. */
  lemma {:induction false} ClearedMatches(d: Disk, d': Disk, v: View, c: Key)
    requires Matches(d, v) && Entries(d') == Entries(d) - CycleKeys(d, c)
    requires forall id :: Backlog(d', id) == if id == c then [] else Backlog(d, id)
    ensures Matches(d', v - {c})
  {
    hide Backlog, Weight, SumLens, CycleKeys;
    SumOfCycle(d, c);
    WeightWithout(v, c);
    assert Payloads([]) == [];
    assert Sum(d') == SumLens(Entries(d) - CycleKeys(d, c));
  }

  lemma {:induction false} AppendMatches(d: Disk, v: View, id: Key, p: Payload, n: int)
    requires Safe(d) && NextAtMost(d, n) && n + 1 < U64_LIMIT && Matches(d, v)
    ensures Matches(ApplyAll(d, AppendWrites(d, id, p), Apply), v[id := Get(v, id) + [p]])
  {
    hide Backlog, Weight, Sum, ApplyAll, AppendWrites, Safe, NextAtMost, Next;
    AppendEffect(d, id, p, n);
    WeightAppend(v, id, p);
    forall x
      ensures Get(v[id := Get(v, id) + [p]], x) == Payloads(Backlog(ApplyAll(d, AppendWrites(d, id, p), Apply), x))
    {
      AppendGoesLast(d, id, p, n, x);
      PayloadsSnoc(Backlog(d, id), CycleEntry(Next(d, id), p));
    }
  }

  lemma {:induction false} AckMatches(d: Disk, v: View, x: Key)
    requires Safe(d) && PlainDisk(d) && PlainId(x) && Matches(d, v)
    ensures Matches(ApplyAll(d, AckWrites(d, x), Apply), v - {x})
  {
    hide ApplyAll, AckInnerWrites, Backlog, Safe, PlainDisk, PlainId, Matches, Entries;
    var d' := ApplyAll(d, AckWrites(d, x), Apply);
    forall id
      ensures Backlog(d', id) == if id == x then [] else Backlog(d, id)
    {
      AckClears(d, x, id);
    }
    if x in d.acked {
      ApplyNone(d, Apply);
      NothingToClear(d, v, x);
    } else {
      PlainCycle(d, x);
      AckFreesOneCycle(d, x);
      ClearedMatches(d, d', v, x);
    }
  }

  lemma {:induction false} NothingToClear(d: Disk, v: View, x: Key)
    requires Matches(d, v) && Backlog(d, x) == []
    ensures v - {x} == v
  {
    hide Backlog, Weight, Sum;
    assert Payloads([]) == [];
    assert Get(v, x) == [];
  }

  lemma {:induction false} PlainCycle(d: Disk, x: Key)
    requires PlainDisk(d) && PlainId(x)
    ensures WellKeyed(d) && ColonFreeIds(d) && COLON !in x
  {
  }

  /** A turn of eviction where no number in use has a 0x3A byte. */
  lemma {:induction false} EvictMatches(d: Disk, max: u64, v: View) returns (v': View)
    requires Safe(d) && Exact(d) && PlainDisk(d) && Matches(d, v)
    requires forall k :: k in Entries(d) ==> IsEntryKey(k) && COLON !in Be64(KeySeq(k))
    ensures Matches(ApplyAll(d, EvictRoundWrites(d, max), Apply), v') && ViewStep(v, max, EvictRound, v')
  {
    hide ApplyAll, AckInnerWrites, Backlog, Matches, Entries, Be64, KeySeq, OldestId, VisibleKeys, Evictable, Exact;
    hide AckedClear, Fresh, Recorded, Sum, IsVictim, TextIds, ColonFreeIds;
    GuardsAgree(d, v, max);
    ApplyNone(d, Apply);
    v' := v;
    if OverBudget(d, max) {
      OldestParts(d, max);
      OwnerIsVictim(d, v, max);
      var k := Least(VisibleKeys(d));
      var c := KeyId(k);
      assert OldestId(d).value == c;
      NotAcked(d, k);
      AckMatches(d, v, c);
      v' := v - {c};
    }
  }

  lemma {:induction false} NotAcked(d: Disk, k: Key)
    requires Safe(d) && k in Entries(d)
    ensures IsEntryKey(k) && AckWrites(d, KeyId(k)) == AckInnerWrites(d, KeyId(k))
  {
    hide AckInnerWrites;
  }

  // ---- over runs ----

  lemma {:induction false} StepMatches(d: Disk, max: u64, v: View, e: Event, n: int) returns (v': View)
    requires Safe(d) && Exact(d) && NextAtMost(d, n) && PlainDisk(d) && Matches(d, v)
    requires PlainEvent(e) && (e.Append? ==> n + 1 < U64_LIMIT)
    requires forall k :: k in Entries(d) ==> IsEntryKey(k) && COLON !in Be64(KeySeq(k))
    ensures Matches(ApplyAll(d, EventWrites(d, max, e), Apply), v') && ViewStep(v, max, e, v')
  {
    hide ApplyAll, AppendWrites, AckWrites, EvictRoundWrites, Matches, Safe, Exact, NextAtMost, PlainDisk, PlainId;
    hide Entries, Be64, KeySeq, IsEntryKey, Evictable, IsVictim;
    match e {
      case Append(id, p) =>
        AppendMatches(d, v, id, p, n);
        v' := v[id := Get(v, id) + [p]];
      case Ack(id) =>
        AckMatches(d, v, id);
        v' := v - {id};
      case EvictRound =>
        v' := EvictMatches(d, max, v);
      case Complete(id) =>
        ApplyOne(d, PutCompleted(id), Apply);
        CompletedMatches(d, Apply(d, PutCompleted(id)), v);
        v' := v;
    }
  }

  lemma {:induction false} CompletedMatches(d: Disk, d': Disk, v: View)
    requires Matches(d, v) && d'.pending == d.pending
    ensures Matches(d', v)
  {
    hide Backlog, Weight, SumLens;
    forall id
      ensures Backlog(d', id) == Backlog(d, id)
    {
      BacklogUntouched(d, d', id);
    }
    assert Entries(d') == Entries(d);
  }

  lemma {:induction false} RunMatches(max: u64, events: seq<Event>) returns (v: View)
    requires PlainRun(events) && ShortCycles(events)
    ensures Reaches(max, events, v) && Matches(WholeRun(EMPTY_DISK, max, events), v)
    decreases |events|
  {
    if events == [] {
      v := map[];
      NothingMatches();
    } else {
      hide PlainRun, ShortCycles, Matches, ViewStep, WholeRun, Safe, Exact, NextAtMost, PlainDisk, PlainEvent, Entries;
      hide AppendCount, AppendedBytes, Be64, KeySeq, IsEntryKey;
      var front, e := events[..|events| - 1], events[|events| - 1];
      assert events == front + [e];
      PlainRunSnoc(front, e);
      ShortPrefix(events);
      var u := RunMatches(max, front);
      var d := WholeRun(EMPTY_DISK, max, front);
      ShortState(max, front);
      v := StepMatches(d, max, u, e, AppendCount(front));
      WholeRunSnoc(max, front, e);
    }
  }

  lemma {:induction false} NothingMatches()
    ensures Matches(EMPTY_DISK, map[])
  {
    hide SumLens;
    assert Entries(EMPTY_DISK) == map[];
    SumLensEmpty();
    forall id
      ensures Payloads(Backlog(EMPTY_DISK, id)) == []
    {
      EmptyBacklog(EMPTY_DISK, id);
    }
  }

  lemma {:induction false} ShortState(max: u64, events: seq<Event>)
    requires PlainRun(events) && ShortCycles(events)
    ensures var d := WholeRun(EMPTY_DISK, max, events);
            && Safe(d) && Exact(d) && NextAtMost(d, AppendCount(events)) && PlainDisk(d)
            && forall k :: k in Entries(d) ==> IsEntryKey(k) && COLON !in Be64(KeySeq(k))
  {
    hide WholeRun, ShortCycles, Backlog, Logged, Next, AppendsTo, Be64, KeySeq, Entries, Safe, PlainEvent, IsEntryKey;
    var d := WholeRun(EMPTY_DISK, max, events);
    CounterExact(max, events);
    RunIsLogged(max, events, []);
    forall id
      ensures Next(d, id) == AppendsTo(events, id)
    {
      RunIsLogged(max, events, id);
    }
    forall k | k in Entries(d)
      ensures IsEntryKey(k) && COLON !in Be64(KeySeq(k))
    {
      ShortIsPlain(d, events, k);
    }
  }

  /** Over runs with plain ids and at most 58 appends to each cycle, the listing is the map that the machine
      reaches, less its hidden cycles: each cycle once, with its payloads in the order of their appends. */
  lemma {:induction false} ListingIsMap(max: u64, events: seq<Event>)
    requires PlainRun(events) && ShortCycles(events)
    ensures var cs := Listing(WholeRun(EMPTY_DISK, max, events));
            && DistinctIds(cs)
            && exists v :: && Reaches(max, events, v)
                           && (forall g :: 0 <= g < |cs| ==> cs[g].id in v && Payloads(cs[g].entries) == v[cs[g].id])
                           && (forall id :: (exists g :: 0 <= g < |cs| && cs[g].id == id) <==> id in VisibleIds(v))
  {
    hide WholeRun, Logged, Filter, Listing, PlainRun, ShortCycles, Backlog, Weight, Sum, Reaches;
    var d := WholeRun(EMPTY_DISK, max, events);
    var cs := Listing(d);
    var v := RunMatches(max, events);
    ListingIsHistory(max, events);
    forall id
      ensures Filter(Logged(max, events, id), PlainSeq()) == Backlog(d, id)
    {
      LoggedIsPlain(max, events, id);
      RunIsLogged(max, events, id);
    }
    forall id
      ensures Backlog(d, id) != [] <==> id in v
    {
      assert |Payloads(Backlog(d, id))| == |Backlog(d, id)|;
    }
    forall g | 0 <= g < |cs|
      ensures cs[g].id in v && Payloads(cs[g].entries) == v[cs[g].id]
    {
      assert cs[g].entries == Backlog(d, cs[g].id);
      assert cs[g].id == cs[g].id && Backlog(d, cs[g].id) != [];
    }
  }
}
