/** What the journal shows after a run: the listing is a map from cycles to what was appended to them. */
module JournalHistory {
  import opened Bytes
  import opened Sorting
  import opened JournalDisk
  import opened JournalSafety
  import opened JournalEviction
  import opened JournalView
  import opened Trees
  import Utf8
  import opened Writes

  // ---- the listing shows the backlogs ----

  function PlainSeq(): CycleEntry -> bool {
    (e: CycleEntry) => COLON !in Be64(e.s)
  }

  /** The part of a backlog that the listing can show. */
  function ShownBacklog(d: Disk, id: Key): seq<CycleEntry> {
    Filter(Backlog(d, id), PlainSeq())
  }

  ghost predicate Lists(cs: seq<Cycle>, id: Key, e: CycleEntry) {
    exists g, i :: 0 <= g < |cs| && 0 <= i < |cs[g].entries| && cs[g].id == id && cs[g].entries[i] == e
  }

  lemma ListingHolds(d: Disk, id: Key, e: CycleEntry)
    requires TextIds(d)
    ensures Lists(Listing(d), id, e) <==> Holds(d, id, e) && !(HIDDEN_PREFIX <= id) && PlainSeq()(e)
  {
    hide Listing, TextIds, Be64;
    var cs, x := Listing(d), Item(id, e.s, e.payload);
    ListingComplete(d, x);
    PendingKeyParts(id, e.s);
    if g, i :| 0 <= g < |cs| && 0 <= i < |cs[g].entries| && cs[g].id == id && cs[g].entries[i] == e {
      assert x == Item(cs[g].id, cs[g].entries[i].s, cs[g].entries[i].payload);
    }
    if g, i :| 0 <= g < |cs| && 0 <= i < |cs[g].entries|
               && x == Item(cs[g].id, cs[g].entries[i].s, cs[g].entries[i].payload) {
      assert cs[g].id == id && cs[g].entries[i] == e;
    }
  }

  /** With colon-free ids the listing has each cycle once, with exactly the showable part of its backlog,
      and it has the cycles that are not hidden and have such a part. */
  lemma ListingIsBacklog(d: Disk)
    requires TextIds(d) && ColonFreeIds(d)
    ensures DistinctIds(Listing(d))
    ensures forall g :: 0 <= g < |Listing(d)| ==> Listing(d)[g].entries == ShownBacklog(d, Listing(d)[g].id)
    ensures forall id :: (exists g :: 0 <= g < |Listing(d)| && Listing(d)[g].id == id)
                         <==> !(HIDDEN_PREFIX <= id) && ShownBacklog(d, id) != []
  {
    hide Listing, TextIds, ColonFreeIds, Holds, ShownBacklog, Lists;
    ListingOrdered(d);
    var cs := Listing(d);
    forall g | 0 <= g < |cs|
      ensures cs[g].entries == ShownBacklog(d, cs[g].id)
    {
      GroupIsBacklog(d, g);
    }
    forall id
      ensures (exists g :: 0 <= g < |cs| && cs[g].id == id) <==> !(HIDDEN_PREFIX <= id) && ShownBacklog(d, id) != []
    {
      ListedIff(d, id);
    }
  }

  lemma ShownBacklogContents(d: Disk, id: Key)
    ensures forall e :: e in ShownBacklog(d, id) <==> Holds(d, id, e) && PlainSeq()(e)
    ensures Pairwise(ShownBacklog(d, id), BySeq)
  {
    hide Holds, Backlog, Filter, PlainSeq;
    BacklogContents(d, id);
    BacklogAscends(d, id);
    FilterContents(Backlog(d, id), PlainSeq());
    FilterPairwise(Backlog(d, id), PlainSeq(), BySeq);
  }

  lemma GroupIsBacklog(d: Disk, g: nat)
    requires TextIds(d) && DistinctIds(Listing(d)) && AllAscending(Listing(d)) && g < |Listing(d)|
    ensures Listing(d)[g].entries == ShownBacklog(d, Listing(d)[g].id)
  {
    hide Listing, TextIds, Holds, ShownBacklog, Be64;
    var cs := Listing(d);
    var id, es := cs[g].id, cs[g].entries;
    ShownBacklogContents(d, id);
    assert SeqAscending(cs[g]);
    assert es[0] in es;
    ListingHolds(d, id, es[0]);
    assert Lists(cs, id, es[0]);
    forall e
      ensures e in es <==> e in ShownBacklog(d, id)
    {
      ListingHolds(d, id, e);
      OwnGroup(cs, g, e);
    }
    OrderedUnique(es, ShownBacklog(d, id), BySeq);
  }

  lemma OwnGroup(cs: seq<Cycle>, g: nat, e: CycleEntry)
    requires DistinctIds(cs) && g < |cs|
    ensures Lists(cs, cs[g].id, e) <==> e in cs[g].entries
  {
    if h, i :| 0 <= h < |cs| && 0 <= i < |cs[h].entries| && cs[h].id == cs[g].id && cs[h].entries[i] == e {
      assert h == g;
    }
  }

  lemma ListedIff(d: Disk, id: Key)
    requires TextIds(d) && AllAscending(Listing(d))
    ensures (exists g :: 0 <= g < |Listing(d)| && Listing(d)[g].id == id)
            <==> !(HIDDEN_PREFIX <= id) && ShownBacklog(d, id) != []
  {
    hide Listing, TextIds, Holds, ShownBacklog, Be64;
    var cs := Listing(d);
    ShownBacklogContents(d, id);
    if g :| 0 <= g < |cs| && cs[g].id == id {
      assert SeqAscending(cs[g]);
      var e := cs[g].entries[0];
      assert Lists(cs, id, e);
      ListingHolds(d, id, e);
      assert e in ShownBacklog(d, id);
    }
    if !(HIDDEN_PREFIX <= id) && ShownBacklog(d, id) != [] {
      var e := ShownBacklog(d, id)[0];
      assert e in ShownBacklog(d, id);
      ListingHolds(d, id, e);
    }
  }

  // ---- ids over runs ----

  predicate PlainId(id: Key) {
    Utf8.Valid(id) && COLON !in id
  }

  predicate PlainEvent(e: Event) {
    match e
    case Append(id, _) => PlainId(id)
    case Ack(id) => PlainId(id)
    case _ => true
  }

  /** Every pending id is text without colons. */
  ghost predicate PlainDisk(d: Disk) {
    TextIds(d) && ColonFreeIds(d)
  }

  /** All pending ids are of one kind. */
  ghost predicate IdsAre(d: Disk, kind: Key -> bool) {
    WellKeyed(d) && forall k :: k in Entries(d) ==> kind(KeyId(k))
  }

  lemma StepIds(d: Disk, max: u64, s: Step, n: int, kind: Key -> bool)
    requires Safe(d) && NextAtMost(d, n) && (s.event.Append? ==> n + 1 < U64_LIMIT)
    requires IdsAre(d, kind) && (s.event.Append? ==> kind(s.event.id))
    ensures IdsAre(After(d, max, s), kind)
  {
    hide Be64, FromBe64, SumLens, ApplyAll, AckInnerWrites, AppendWrites, OldestId;
    var ws := EventWrites(d, max, s.event);
    var cut := if s.cut < |ws| then s.cut else |ws|;
    assert Prefix(ws, s.cut) == ws[..cut];
    ApplyNone(d, Apply);
    match s.event {
      case Append(id, p) =>
        AppendPrefix(d, id, p, cut);
        PendingKeyParts(id, Next(d, id));
      case Ack(id) =>
        if id !in d.acked {
          AckSafe(d, id, cut);
        }
      case EvictRound =>
        if OverBudget(d, max) {
          AckSafe(d, OldestId(d).value, cut);
        }
      case Complete(id) =>
        ApplyOne(d, PutCompleted(id), Apply);
        assert ws[..cut] == [] || ws[..cut] == ws;
    }
  }

  /** Over every run, stopped anywhere, whose appended ids are all of one kind, so are the pending ids. */
  lemma {:induction false} RunIdsAre(max: u64, steps: seq<Step>, kind: Key -> bool)
    requires Appends(steps) < U64_LIMIT
    requires forall i :: 0 <= i < |steps| && steps[i].event.Append? ==> kind(steps[i].event.id)
    ensures IdsAre(Run(EMPTY_DISK, max, steps), kind)
    decreases |steps|
  {
    if steps == [] {
      assert Entries(EMPTY_DISK) == map[];
    } else {
      hide IdsAre, Safe, After;
      var front, last := steps[..|steps| - 1], steps[|steps| - 1];
      RunIdsAre(max, front, kind);
      CrashSafety(max, front);
      StepIds(Run(EMPTY_DISK, max, front), max, last, Appends(front), kind);
    }
  }

  /** If they are text, colons or not, the listing's lemmas apply. */
  lemma {:induction false} RunTexts(max: u64, steps: seq<Step>)
    requires Appends(steps) < U64_LIMIT
    requires forall i :: 0 <= i < |steps| && steps[i].event.Append? ==> Utf8.Valid(steps[i].event.id)
    ensures TextIds(Run(EMPTY_DISK, max, steps))
  {
    hide Run, Utf8.Valid;
    RunIdsAre(max, steps, Utf8.Valid);
  }

  lemma {:induction false} PlainIsKind(d: Disk)
    ensures PlainDisk(d) <==> IdsAre(d, PlainId)
  {
  }

  lemma {:induction false} RunIds(max: u64, steps: seq<Step>)
    requires Appends(steps) < U64_LIMIT
    requires forall i :: 0 <= i < |steps| && steps[i].event.Append? ==> PlainId(steps[i].event.id)
    ensures PlainDisk(Run(EMPTY_DISK, max, steps))
  {
    hide Run, PlainId, PlainDisk, IdsAre;
    RunIdsAre(max, steps, PlainId);
    PlainIsKind(Run(EMPTY_DISK, max, steps));
  }

  lemma {:induction false} WholeIds(d: Disk, max: u64, e: Event, n: int)
    requires Safe(d) && NextAtMost(d, n) && (e.Append? ==> n + 1 < U64_LIMIT)
    requires PlainDisk(d) && PlainEvent(e)
    ensures PlainDisk(ApplyAll(d, EventWrites(d, max, e), Apply))
  {
    hide PlainDisk, Safe, ApplyAll, EventWrites, PlainId, IdsAre;
    var s := Step(e, |EventWrites(d, max, e)|);
    PlainIsKind(d);
    StepIds(d, max, s, n, PlainId);
    PlainIsKind(After(d, max, s));
  }

  // ---- what each operation does to the backlogs ----

  /** The entries of `id` whose keys are not under the prefix of `x`. */
  function Spared(id: Key, x: Key): CycleEntry -> bool {
    (e: CycleEntry) => !(CyclePrefix(x) <= PendingKey(id, e.s))
  }

  lemma BacklogAfterPrefixGone(d: Disk, d': Disk, x: Key, id: Key)
    requires Entries(d') == Entries(d) - (set k | k in Entries(d) && CyclePrefix(x) <= k)
    ensures Backlog(d', id) == Filter(Backlog(d, id), Spared(id, x))
  {
    hide Be64, Backlog, Filter, PendingKey;
    var l := Filter(Backlog(d, id), Spared(id, x));
    BacklogContents(d, id);
    BacklogAscends(d, id);
    FilterContents(Backlog(d, id), Spared(id, x));
    FilterPairwise(Backlog(d, id), Spared(id, x), BySeq);
    forall e
      ensures e in l <==> Holds(d', id, e)
    {
      var k := PendingKey(id, e.s);
      PendingKeyParts(id, e.s);
      EntriesKeys(d);
      EntriesKeys(d');
      assert k in Entries(d') <==> k in Entries(d) && !(CyclePrefix(x) <= k);
    }
    BacklogIs(d', id, l);
  }

  /** With colon-free ids the prefix of an id covers all of its own entries and none of another's. */
  lemma SparedExactly(d: Disk, x: Key, id: Key)
    requires COLON !in x && COLON !in id
    ensures Filter(Backlog(d, id), Spared(id, x)) == if id == x then [] else Backlog(d, id)
  {
    hide Be64, Backlog, Filter;
    FilterContents(Backlog(d, id), Spared(id, x));
    forall e: CycleEntry
      ensures Spared(id, x)(e) <==> id != x
    {
      if CyclePrefix(x) <= PendingKey(id, e.s) {
        ColonFreePrefix(x, id, e.s);
      }
      assert CyclePrefix(id) <= PendingKey(id, e.s);
    }
    if id == x {
      FilterNone(Backlog(d, id), Spared(id, x));
    }
  }

  lemma EmptyBacklog(d: Disk, id: Key)
    requires WellKeyed(d) && forall k :: k in Entries(d) ==> KeyId(k) != id
    ensures Backlog(d, id) == []
  {
    hide IsEntryKey, KeyId;
    EntriesKeys(d);
    assert CycleKeys(d, id) == {};
  }

  /** An acknowledgement clears its cycle and leaves every other one alone, whether or not the cycle was
      acknowledged before. */
  lemma {:induction false} AckClears(d: Disk, x: Key, id: Key)
    requires Safe(d) && PlainDisk(d) && PlainId(x)
    ensures Backlog(ApplyAll(d, AckWrites(d, x), Apply), id) == if id == x then [] else Backlog(d, id)
  {
    hide ApplyAll, AckInnerWrites, Backlog, IsEntryKey, KeyId, Fresh, Recorded, Sum, Utf8.Valid;
    ApplyNone(d, Apply);
    if x in d.acked {
      if id == x {
        EmptyBacklog(d, id);
      }
    } else {
      AckEffect(d, x);
      BacklogAfterPrefixGone(d, ApplyAll(d, AckInnerWrites(d, x), Apply), x, id);
      SparedOrEmpty(d, x, id);
    }
  }

  /** The same for an id under which nothing can be pending. */
  lemma SparedOrEmpty(d: Disk, x: Key, id: Key)
    requires PlainDisk(d) && COLON !in x
    ensures Filter(Backlog(d, id), Spared(id, x)) == if id == x then [] else Backlog(d, id)
  {
    hide Backlog, IsEntryKey, KeyId, Filter;
    if COLON in id {
      EmptyBacklog(d, id);
      FilterContents(Backlog(d, id), Spared(id, x));
    } else {
      SparedExactly(d, x, id);
    }
  }

  /** The cycle that the next turn of eviction takes from: the owner of the smallest visible key. */
  ghost predicate Evicts(d: Disk, max: u64, id: Key) {
    OverBudget(d, max) && exists s :: VisibleKeys(d) != {} && Least(VisibleKeys(d)) == PendingKey(id, s)
  }

  /** The id decoded from a key of `c` is `c`, or continues it after a colon; the latter only where the
      encoded number has a 0x3A byte. */
  lemma {:induction false} DecodedContinues(c: Key, s: u64)
    requires Utf8.Valid(c)
    ensures var k := PendingKey(c, s);
            && LastColon(k) >= 0
            && var x := Utf8.Lossy(k[..LastColon(k)]);
               (x == c || CyclePrefix(c) <= x) && (COLON !in Be64(s) ==> x == c)
  {
    hide Be64, Utf8.Valid, Utf8.Lossy, LastColon, Utf8.Decode;
    var k, b := PendingKey(c, s), Be64(s);
    LastColonOfConcat(c + [COLON], b);
    LastColonOfConcat(c, [COLON]);
    assert [COLON][0] == COLON && LastColon([COLON]) == 0;
    if LastColon(b) < 0 {
      assert k[..|c|] == c;
      Utf8.LossyIdentityIffValid(c);
    } else {
      var h := b[..LastColon(b)];
      assert k[..|c| + 1 + LastColon(b)] == c + [COLON] + h;
      ColonText(c, []);
      assert c + [COLON] + [] == c + [COLON];
      EmptyIsValid();
      Utf8.LossyConcat(c + [COLON], h);
    }
  }

  lemma EmptyIsValid()
    ensures Utf8.Valid([])
  {
  }

  /** The smallest visible key, taken apart. */
  lemma OldestParts(d: Disk, max: u64)
    requires WellKeyed(d) && PlainDisk(d) && OverBudget(d, max)
    ensures VisibleKeys(d) != {}
    ensures var k := Least(VisibleKeys(d));
            var x := OldestId(d).value;
            && k in Entries(d) && IsEntryKey(k) && k == PendingKey(KeyId(k), KeySeq(k)) && PlainId(KeyId(k))
            && (x == KeyId(k) || CyclePrefix(KeyId(k)) <= x)
            && (COLON !in Be64(KeySeq(k)) ==> x == KeyId(k))
            && forall id :: Evicts(d, max, id) <==> id == KeyId(k)
  {
    hide OldestId, VisibleKeys, Be64, FromBe64, Utf8.Lossy, Utf8.Valid, LastColon;
    OldestKey(d);
    var k := Least(VisibleKeys(d));
    PendingKeyOfParts(k);
    DecodedContinues(KeyId(k), KeySeq(k));
    forall id
      ensures Evicts(d, max, id) <==> id == KeyId(k)
    {
      if s :| k == PendingKey(id, s) {
        PendingKeyParts(id, s);
      }
    }
  }

  /** A prefix that starts in one cycle spares every other. */
  lemma SparedOthers(d: Disk, c: Key, x: Key, id: Key)
    requires PlainDisk(d) && COLON !in c && id != c && (x == c || CyclePrefix(c) <= x)
    ensures Filter(Backlog(d, id), Spared(id, x)) == Backlog(d, id)
  {
    hide Backlog, IsEntryKey, KeyId, Filter, Be64, Utf8.Valid;
    FilterContents(Backlog(d, id), Spared(id, x));
    if COLON in id {
      EmptyBacklog(d, id);
    } else {
      forall e: CycleEntry
        ensures Spared(id, x)(e)
      {
        if CyclePrefix(x) <= PendingKey(id, e.s) {
          assert CyclePrefix(c) <= CyclePrefix(x);
          ColonFreePrefix(c, id, e.s);
        }
      }
    }
  }

  /** A turn of eviction takes from one cycle only: what is under the decoded prefix, and that is the
      whole cycle if the number of its first entry has no 0x3A byte. */
  lemma {:induction false} EvictionTakes(d: Disk, max: u64, id: Key)
    requires Safe(d) && PlainDisk(d)
    ensures var d' := ApplyAll(d, EvictRoundWrites(d, max), Apply);
            Backlog(d', id) ==
            if Evicts(d, max, id) then Filter(Backlog(d, id), Spared(id, OldestId(d).value)) else Backlog(d, id)
    ensures OverBudget(d, max) ==> VisibleKeys(d) != {} && IsEntryKey(Least(VisibleKeys(d)))
    ensures Evicts(d, max, id) && COLON !in Be64(KeySeq(Least(VisibleKeys(d)))) ==>
              Filter(Backlog(d, id), Spared(id, OldestId(d).value)) == []
  {
    hide ApplyAll, AckInnerWrites, Backlog, Filter, OldestId, VisibleKeys, Fresh, Sum, Recorded, Be64, FromBe64;
    ApplyNone(d, Apply);
    if OverBudget(d, max) {
      OldestParts(d, max);
      var c, x := KeyId(Least(VisibleKeys(d))), OldestId(d).value;
      AckEffect(d, x);
      BacklogAfterPrefixGone(d, ApplyAll(d, AckInnerWrites(d, x), Apply), x, id);
      if id != c {
        SparedOthers(d, c, x, id);
      } else if x == c {
        SparedExactly(d, c, c);
      }
    }
  }

  // ---- over whole runs ----

  /** The number of payloads appended to a cycle so far; the next one gets this number. */
  ghost function AppendsTo(events: seq<Event>, id: Key): nat {
    if events == [] then 0
    else
      var e := events[|events| - 1];
      AppendsTo(events[..|events| - 1], id) + if e.Append? && e.id == id then 1 else 0
  }

  /** What becomes of the pending entries `l` of cycle `id` of which `n` were appended so far: an append adds
      at the end, an acknowledgement clears, a turn of eviction takes from its cycle what the decoded prefix
      covers, and nothing else changes anything. */
  ghost function LogStep(d: Disk, max: u64, e: Event, id: Key, n: nat, l: seq<CycleEntry>): seq<CycleEntry> {
    match e
    case Append(x, p) => if x == id then l + [CycleEntry(n % U64_LIMIT, p)] else l
    case Ack(x) => if x == id then [] else l
    case EvictRound => if Evicts(d, max, id) then Filter(l, Spared(id, OldestId(d).value)) else l
    case Complete(_) => l
  }

  /** What a cycle has pending after a run, from the history alone but for the choice of eviction. */
  ghost function Logged(max: u64, events: seq<Event>, id: Key): seq<CycleEntry> {
    if events == [] then []
    else
      var front := events[..|events| - 1];
      LogStep(WholeRun(EMPTY_DISK, max, front), max, events[|events| - 1], id,
              AppendsTo(front, id), Logged(max, front, id))
  }

  ghost predicate InStep(max: u64, events: seq<Event>, id: Key) {
    var d := WholeRun(EMPTY_DISK, max, events);
    Backlog(d, id) == Logged(max, events, id) && Next(d, id) == AppendsTo(events, id)
  }

  lemma {:induction false} NextAfter(d: Disk, max: u64, e: Event, n: int, id: Key)
    requires Safe(d) && NextAtMost(d, n) && (e.Append? ==> n + 1 < U64_LIMIT)
    ensures Next(ApplyAll(d, EventWrites(d, max, e), Apply), id) ==
            Next(d, id) + if e.Append? && e.id == id then 1 else 0
  {
    hide Safe, NextAtMost, ApplyAll, AppendWrites, AckInnerWrites, OldestId, Be64, FromBe64, Sum;
    ApplyNone(d, Apply);
    match e {
      case Append(x, p) => AppendEffect(d, x, p, n);
      case Ack(x) => AckEffect(d, x);
      case EvictRound =>
        if OverBudget(d, max) {
          AckEffect(d, OldestId(d).value);
        }
      case Complete(x) => ApplyOne(d, PutCompleted(x), Apply);
    }
  }

  lemma {:induction false} BacklogAfter(d: Disk, max: u64, e: Event, n: int, id: Key)
    requires Safe(d) && NextAtMost(d, n) && (e.Append? ==> n + 1 < U64_LIMIT)
    requires PlainDisk(d) && PlainEvent(e)
    ensures Backlog(ApplyAll(d, EventWrites(d, max, e), Apply), id) ==
            LogStep(d, max, e, id, Next(d, id), Backlog(d, id))
  {
    hide Safe, NextAtMost, PlainDisk, PlainId, ApplyAll, Backlog, AppendWrites, AckWrites, EvictRoundWrites, Filter;
    match e {
      case Append(x, p) => AppendGoesLast(d, x, p, n, id);
      case Ack(x) => AckClears(d, x, id);
      case EvictRound => EvictionTakes(d, max, id);
      case Complete(x) =>
        ApplyOne(d, PutCompleted(x), Apply);
        BacklogUntouched(d, Apply(d, PutCompleted(x)), id);
    }
  }

  lemma BacklogUntouched(d: Disk, d': Disk, id: Key)
    requires d'.pending == d.pending
    ensures Backlog(d', id) == Backlog(d, id)
  {
    hide Backlog, PendingKey;
    BacklogContents(d, id);
    BacklogAscends(d, id);
    BacklogIs(d', id, Backlog(d, id));
  }

  /** Plain ids throughout, and the counters do not run out. */
  ghost predicate PlainRun(events: seq<Event>) {
    && AppendCount(events) < U64_LIMIT && AppendedBytes(events) < I64_LIMIT
    && forall i :: 0 <= i < |events| ==> PlainEvent(events[i])
  }

  lemma {:induction false} PlainRunSnoc(front: seq<Event>, e: Event)
    requires PlainRun(front + [e])
    ensures PlainRun(front) && PlainEvent(e) && (e.Append? ==> AppendCount(front) + 1 < U64_LIMIT)
  {
    hide PlainEvent;
    assert (front + [e])[..|front|] == front && (front + [e])[|front|] == e;
    forall i | 0 <= i < |front|
      ensures PlainEvent(front[i])
    {
      assert (front + [e])[i] == front[i];
    }
  }

  /** The journal's invariants and the log's, together, over runs in which every operation finishes. */
  lemma {:induction false} RunIsLogged(max: u64, events: seq<Event>, id: Key)
    requires PlainRun(events)
    ensures InStep(max, events, id) && PlainDisk(WholeRun(EMPTY_DISK, max, events))
    decreases |events|
  {
    if events == [] {
      NothingLogged(max, id);
    } else {
      hide Safe, NextAtMost, PlainDisk, PlainEvent, InStep, WholeRun, AppendCount, AppendedBytes;
      var front, e := events[..|events| - 1], events[|events| - 1];
      assert events == front + [e];
      PlainRunSnoc(front, e);
      RunIsLogged(max, front, id);
      CounterExact(max, front);
      InStepMore(max, front, e, id);
    }
  }

  lemma {:induction false} NothingLogged(max: u64, id: Key)
    ensures InStep(max, [], id) && PlainDisk(WholeRun(EMPTY_DISK, max, []))
  {
    assert Entries(EMPTY_DISK) == map[];
    EmptyBacklog(EMPTY_DISK, id);
  }

  lemma {:induction false} InStepMore(max: u64, front: seq<Event>, e: Event, id: Key)
    requires AppendCount(front) + 1 < U64_LIMIT || !e.Append?
    requires InStep(max, front, id) && PlainEvent(e)
    requires var d := WholeRun(EMPTY_DISK, max, front);
             Safe(d) && PlainDisk(d) && NextAtMost(d, AppendCount(front))
    ensures InStep(max, front + [e], id) && PlainDisk(WholeRun(EMPTY_DISK, max, front + [e]))
  {
    hide Safe, NextAtMost, ApplyAll, EventWrites, Backlog, PlainDisk, PlainEvent, Filter, Evicts, OldestId, Next;
    hide WholeRun, Logged, AppendsTo, LogStep;
    var d := WholeRun(EMPTY_DISK, max, front);
    WholeRunSnoc(max, front, e);
    LoggedSnoc(max, front, e, id);
    AtMost(d, AppendCount(front), id);
    WholeIds(d, max, e, AppendCount(front));
    NextAfter(d, max, e, AppendCount(front), id);
    BacklogAfter(d, max, e, AppendCount(front), id);
  }

  lemma AtMost(d: Disk, n: int, id: Key)
    requires NextAtMost(d, n)
    ensures Next(d, id) <= n
  {
  }

  lemma {:induction false} LoggedSnoc(max: u64, front: seq<Event>, e: Event, id: Key)
    ensures AppendsTo(front + [e], id) == AppendsTo(front, id) + if e.Append? && e.id == id then 1 else 0
    ensures Logged(max, front + [e], id) ==
            LogStep(WholeRun(EMPTY_DISK, max, front), max, e, id, AppendsTo(front, id), Logged(max, front, id))
  {
    hide WholeRun, LogStep;
    assert (front + [e])[..|front|] == front;
  }

  /** Over runs with plain ids, the listing is the map from the visible cycles to the showable part of what
      the history says they have pending: each cycle once, its entries in the order of their appends. */
  lemma {:induction false} ListingIsHistory(max: u64, events: seq<Event>)
    requires PlainRun(events)
    ensures var cs := Listing(WholeRun(EMPTY_DISK, max, events));
            && DistinctIds(cs)
            && (forall g :: 0 <= g < |cs| ==> cs[g].entries == Filter(Logged(max, events, cs[g].id), PlainSeq()))
            && (forall id :: (exists g :: 0 <= g < |cs| && cs[g].id == id)
                             <==> !(HIDDEN_PREFIX <= id) && Filter(Logged(max, events, id), PlainSeq()) != [])
  {
    hide WholeRun, Logged, Filter, Listing, Backlog, PlainEvent, Next, TextIds;
    var d := WholeRun(EMPTY_DISK, max, events);
    RunIsLogged(max, events, []);
    ListingIsBacklog(d);
    forall id
      ensures ShownBacklog(d, id) == Filter(Logged(max, events, id), PlainSeq())
    {
      RunIsLogged(max, events, id);
    }
  }

  // ---- short cycles: every entry can be shown ----

  function Payloads(es: seq<CycleEntry>): seq<Payload> {
    seq(|es|, i requires 0 <= i < |es| => es[i].payload)
  }

  /** No cycle gets as far as the first number with a 0x3A byte. */
  ghost predicate ShortCycles(events: seq<Event>) {
    forall id :: AppendsTo(events, id) <= 58
  }

  lemma ShortPrefix(events: seq<Event>)
    requires ShortCycles(events) && events != []
    ensures ShortCycles(events[..|events| - 1])
  {
    var front := events[..|events| - 1];
    forall id
      ensures AppendsTo(front, id) <= 58
    {
      assert AppendsTo(events, id) <= 58;
    }
  }

  lemma PlainBelow58(s: u64)
    ensures s < 58 ==> COLON !in Be64(s)
    ensures COLON in Be64(58)
  {
    hide Be64;
    LowBytes(58);
    if s < 58 {
      LowBytes(s);
    }
  }

  /** All numbers in use lie below the number of appends. */
  lemma {:induction false} ShortIsPlain(d: Disk, events: seq<Event>, k: Key)
    requires Safe(d) && ShortCycles(events) && k in Entries(d)
    requires forall id :: Next(d, id) == AppendsTo(events, id)
    ensures IsEntryKey(k) && COLON !in Be64(KeySeq(k))
  {
    hide Be64, FromBe64, SumLens;
    assert Next(d, KeyId(k)) == AppendsTo(events, KeyId(k)) <= 58;
    PlainBelow58(KeySeq(k));
  }

  lemma PayloadsSnoc(l: seq<CycleEntry>, e: CycleEntry)
    ensures Payloads(l + [e]) == Payloads(l) + [e.payload]
  {
  }

  lemma {:induction false} LoggedIsPlain(max: u64, events: seq<Event>, id: Key)
    requires PlainRun(events) && ShortCycles(events)
    ensures Filter(Logged(max, events, id), PlainSeq()) == Logged(max, events, id)
  {
    hide Backlog, PlainEvent, Filter, WholeRun, ShortCycles, Be64, Logged, Next, AppendsTo, PendingKey;
    var d := WholeRun(EMPTY_DISK, max, events);
    CounterExact(max, events);
    forall x
      ensures Next(d, x) == AppendsTo(events, x)
    {
      RunIsLogged(max, events, x);
    }
    RunIsLogged(max, events, id);
    BacklogContents(d, id);
    FilterContents(Backlog(d, id), PlainSeq());
    forall e | e in Backlog(d, id)
      ensures PlainSeq()(e)
    {
      PendingKeyParts(id, e.s);
      ShortIsPlain(d, events, PendingKey(id, e.s));
    }
  }
}
