/** Merging the sensor configuration chunks of a directory: the first definition wins. */
module SensorLoad {
  import opened Bytes
  import opened Sorting
  import opened Scopes
  import opened Wrappers

  /** A map that remembers the order in which its keys were inserted. */
  type IndexMap<K, V> = seq<(K, V)>

  datatype SensorSpec<I, C> = SensorSpec(interval: Option<I>, items: IndexMap<Key, C>)

  datatype Events<K, E> = Mapping(entries: IndexMap<K, E>) | OtherValue

  /** What a chunk file turns out to hold. */
  datatype Chunk<I, C, K, E> =
    | Unreadable
    | Invalid
    | Parsed(spec: Option<SensorSpec<I, C>>, events: Option<Events<K, E>>)

  datatype Loaded<I, C, K, E> =
    | ReadError
    | Loaded(interval: Option<I>, sensors: IndexMap<Key, C>, events: Option<IndexMap<K, E>>)

  // ---- the first definition of a key ----

  function First<K(==), V>(l: IndexMap<K, V>, k: K): Option<V> {
    if l == [] then None
    else if l[0].0 == k then Some(l[0].1)
    else First(l[1..], k)
  }

  predicate HasKey<K(==), V>(l: IndexMap<K, V>, k: K) {
    First(l, k).Some?
  }

  /** The position of the first definition, or the length where there is none. */
  function FirstIndex<K(==), V>(l: IndexMap<K, V>, k: K): nat {
    if l == [] || l[0].0 == k then 0 else 1 + FirstIndex(l[1..], k)
  }

  ghost predicate DistinctKeys<K, V>(l: IndexMap<K, V>) {
    forall i, j :: 0 <= i < j < |l| ==> l[i].0 != l[j].0
  }

  /** The entries stand in the order in which a list first defines their keys. */
  ghost predicate InOrderOf<K, V>(r: IndexMap<K, V>, l: IndexMap<K, V>) {
    forall i, j :: 0 <= i < j < |r| ==> FirstIndex(l, r[i].0) < FirstIndex(l, r[j].0)
  }

  /** Keeps of every key the first entry. */
  function FirstWins<K(==), V>(l: IndexMap<K, V>): IndexMap<K, V> {
    if l == [] then []
    else
      var front, last := l[..|l| - 1], l[|l| - 1];
      FirstWins(front) + if HasKey(front, last.0) then [] else [last]
  }

  lemma {:induction false} FirstConcat<K, V>(a: IndexMap<K, V>, b: IndexMap<K, V>, k: K)
    ensures First(a + b, k) == if HasKey(a, k) then First(a, k) else First(b, k)
    decreases |a|
  {
    if a == [] {
      assert a + b == b;
    } else {
      assert (a + b)[1..] == a[1..] + b;
      FirstConcat(a[1..], b, k);
    }
  }

  lemma {:induction false} FirstIndexIsFirst<K, V>(l: IndexMap<K, V>, k: K)
    ensures FirstIndex(l, k) <= |l|
    ensures HasKey(l, k) <==> FirstIndex(l, k) < |l|
    ensures HasKey(l, k) ==> l[FirstIndex(l, k)] == (k, First(l, k).value)
    ensures forall i :: 0 <= i < FirstIndex(l, k) ==> l[i].0 != k
    decreases |l|
  {
    if l != [] {
      FirstIndexIsFirst(l[1..], k);
    }
  }

  lemma HasKeyIff<K, V>(l: IndexMap<K, V>, k: K)
    ensures HasKey(l, k) <==> exists i :: 0 <= i < |l| && l[i].0 == k
  {
    FirstIndexIsFirst(l, k);
  }

  /** Entries of a map with distinct keys are what its keys look up. */
  lemma {:induction false} EntryIffFirst<K, V>(l: IndexMap<K, V>, k: K, v: V)
    requires DistinctKeys(l)
    ensures (k, v) in l <==> First(l, k) == Some(v)
  {
    FirstIndexIsFirst(l, k);
    if (k, v) in l {
      var i :| 0 <= i < |l| && l[i] == (k, v);
      assert i == FirstIndex(l, k);
    }
  }

  lemma {:induction false} FirstWinsSnoc<K, V>(l: IndexMap<K, V>, x: (K, V))
    ensures FirstWins(l + [x]) == FirstWins(l) + if HasKey(l, x.0) then [] else [x]
  {
    assert (l + [x])[..|l|] == l;
  }

  lemma {:induction false} FirstWinsKeeps<K(!new), V>(l: IndexMap<K, V>)
    ensures DistinctKeys(FirstWins(l))
    ensures forall k :: First(FirstWins(l), k) == First(l, k)
    decreases |l|
  {
    if l != [] {
      hide First;
      var front, last := l[..|l| - 1], l[|l| - 1];
      FirstWinsKeeps(front);
      FirstWinsSnoc(front, last);
      assert l == front + [last];
      var r := FirstWins(front);
      forall k
        ensures First(FirstWins(l), k) == First(l, k)
      {
        FirstConcat(front, [last], k);
        FirstConcat(r, [last], k);
        assert r + [] == r;
        FirstOne(last, k);
      }
      forall i | 0 <= i < |r|
        ensures HasKey(front, r[i].0)
      {
        HasKeyIff(r, r[i].0);
      }
    }
  }

  lemma FirstOne<K, V>(x: (K, V), k: K)
    ensures First([x], k) == if x.0 == k then Some(x.1) else None
  {
  }

  lemma {:induction false} FirstIndexSnoc<K, V>(l: IndexMap<K, V>, x: (K, V), k: K)
    ensures FirstIndex(l + [x], k) == if HasKey(l, k) then FirstIndex(l, k) else if x.0 == k then |l| else |l| + 1
    decreases |l|
  {
    if l == [] {
      assert [] + [x] == [x];
      assert [x][1..] == [];
    } else {
      assert (l + [x])[1..] == l[1..] + [x];
      FirstIndexSnoc(l[1..], x, k);
    }
  }

  lemma {:induction false} FirstWinsOrder<K(!new), V>(l: IndexMap<K, V>)
    ensures InOrderOf(FirstWins(l), l)
    decreases |l|
  {
    if l != [] {
      hide First, FirstIndex;
      var front, last := l[..|l| - 1], l[|l| - 1];
      FirstWinsOrder(front);
      FirstWinsSnoc(front, last);
      assert l == front + [last];
      var r := FirstWins(front);
      forall i | 0 <= i < |r|
        ensures FirstIndex(l, r[i].0) == FirstIndex(front, r[i].0) < |front|
      {
        FirstWinsKeeps(front);
        HasKeyIff(r, r[i].0);
        FirstIndexSnoc(front, last, r[i].0);
        FirstIndexIsFirst(front, r[i].0);
      }
      FirstIndexSnoc(front, last, last.0);
    }
  }

  lemma {:induction false} FirstWinsOfDistinct<K, V>(l: IndexMap<K, V>)
    requires DistinctKeys(l)
    ensures FirstWins(l) == l
    decreases |l|
  {
    if l != [] {
      var front, last := l[..|l| - 1], l[|l| - 1];
      assert l == front + [last];
      FirstWinsOfDistinct(front);
      HasKeyIff(front, last.0);
    }
  }

  // ---- merging ----

  /** Adds the entries of a chunk; a key that is already there keeps its value. */
  method Merge<K(==, !new), V>(dst: IndexMap<K, V>, src: IndexMap<K, V>) returns (r: IndexMap<K, V>)
    requires DistinctKeys(dst)
    ensures r == FirstWins(dst + src)
  {
    hide First, FirstWins;
    r := dst;
    FirstWinsOfDistinct(dst);
    assert dst + src[..0] == dst;
    for i := 0 to |src|
      invariant r == FirstWins(dst + src[..i])
    {
      var seen := dst + src[..i];
      assert dst + src[..i + 1] == seen + [src[i]];
      FirstWinsSnoc(seen, src[i]);
      FirstWinsKeeps(seen);
      if HasKey(r, src[i].0) {
        assert r + [] == r;
        continue;
      }
      r := r + [src[i]];
    }
    assert dst + src[..|src|] == dst + src;
  }

  function Entries<K, E>(e: Events<K, E>): IndexMap<K, E> {
    match e
    case Mapping(entries) => entries
    case OtherValue => []
  }

  /** Anything but a mapping is ignored. */
  method MergeEvents<K(==, !new), E>(dst: IndexMap<K, E>, src: Events<K, E>) returns (r: IndexMap<K, E>)
    requires DistinctKeys(dst)
    ensures r == FirstWins(dst + Entries(src))
  {
    match src
    case OtherValue =>
      FirstWinsOfDistinct(dst);
      assert dst + [] == dst;
      r := dst;
    case Mapping(entries) =>
      r := Merge(dst, entries);
  }

  predicate KeyLe<V>(a: (Key, V), b: (Key, V)) {
    Le(a.0, b.0)
  }

  predicate KeyLt<V>(a: (Key, V), b: (Key, V)) {
    Lt(a.0, b.0)
  }

  predicate OtherKey<V>(a: (Key, V), b: (Key, V)) {
    a.0 != b.0
  }

  /** Inserting replaces the value of a key that is already there. */
  function Put<V>(l: IndexMap<Key, V>, x: (Key, V)): IndexMap<Key, V> {
    FirstIndexIsFirst(l, x.0);
    if HasKey(l, x.0) then l[FirstIndex(l, x.0) := x] else l + [x]
  }

  lemma KeysAreOrdered<V(!new)>()
    ensures TotalPreorder<(Key, V)>(KeyLe)
  {
    hide Lt;
    forall a: (Key, V), b: (Key, V)
      ensures KeyLe(a, b) || KeyLe(b, a)
    {
      LtTotal(a.0, b.0);
    }
    forall a: (Key, V), b: (Key, V), c: (Key, V) | KeyLe(a, b) && KeyLe(b, c)
      ensures KeyLe(a, c)
    {
      if Lt(a.0, b.0) && Lt(b.0, c.0) {
        LtTransitive(a.0, b.0, c.0);
      }
    }
  }

  lemma {:induction false} SortedByKey<V(!new)>(l: IndexMap<Key, V>)
    requires DistinctKeys(l)
    ensures Pairwise(Sort(l, KeyLe), KeyLt) && DistinctKeys(Sort(l, KeyLe))
    ensures forall x :: x in Sort(l, KeyLe) <==> x in l
  {
    hide Sort, Lt;
    KeysAreOrdered<V>();
    SortContents(l, KeyLe);
    SortOrdered(l, KeyLe);
    assert Pairwise(l, OtherKey);
    SortPairwise(l, KeyLe, OtherKey);
  }

  method SortSensors<C(!new)>(sensors: IndexMap<Key, C>) returns (r: IndexMap<Key, C>)
    requires DistinctKeys(sensors)
    ensures Pairwise(r, KeyLt) && forall x :: x in r <==> x in sensors
  {
    hide Sort, First, FirstIndex;
    var sorted := Sort(sensors, KeyLe);
    SortedByKey(sensors);
    r := [];
    for i := 0 to |sorted|
      invariant r == sorted[..i]
    {
      HasKeyIff(r, sorted[i].0);
      FirstIndexIsFirst(r, sorted[i].0);
      r := Put(r, sorted[i]);
    }
  }

  // ---- loading ----

  function SensorsOf<I, C, K, E>(c: Chunk<I, C, K, E>): IndexMap<Key, C> {
    if c.Parsed? && c.spec.Some? then c.spec.value.items else []
  }

  function EventsOf<I, C, K, E>(c: Chunk<I, C, K, E>): IndexMap<K, E> {
    if c.Parsed? && c.events.Some? then Entries(c.events.value) else []
  }

  function IntervalOf<I, C, K, E>(c: Chunk<I, C, K, E>): Option<I> {
    if c.Parsed? && c.spec.Some? then c.spec.value.interval else None
  }

  function Collected<A, B>(l: seq<A>, part: A -> seq<B>): seq<B> {
    if l == [] then [] else Collected(l[..|l| - 1], part) + part(l[|l| - 1])
  }

  /** `out` maps each key to the value in the first part that defines it. */
  ghost predicate EarliestWins<A, K(!new), V(!new)>(l: seq<A>, part: A -> IndexMap<K, V>, out: IndexMap<K, V>) {
    forall k, v :: (k, v) in out <==> exists i :: 0 <= i < |l| && DefinedAt(l, part, i, k, v)
  }

  ghost predicate DefinedAt<A, K, V>(l: seq<A>, part: A -> IndexMap<K, V>, i: nat, k: K, v: V)
    requires i < |l|
  {
    First(part(l[i]), k) == Some(v) && forall j :: 0 <= j < i ==> !HasKey(part(l[j]), k)
  }

  ghost predicate FirstInterval<I, C, K, E>(l: seq<Chunk<I, C, K, E>>, out: Option<I>) {
    match out
    case None => forall i :: 0 <= i < |l| ==> IntervalOf(l[i]) == None
    case Some(_) =>
      exists i :: 0 <= i < |l| && IntervalOf(l[i]) == out && forall j :: 0 <= j < i ==> IntervalOf(l[j]) == None
  }

  lemma {:induction false} FirstCollected<A, K(!new), V(!new)>(l: seq<A>, part: A -> IndexMap<K, V>, k: K, v: V)
    ensures HasKey(Collected(l, part), k) <==> exists i :: 0 <= i < |l| && HasKey(part(l[i]), k)
    ensures First(Collected(l, part), k) == Some(v) <==> exists i :: 0 <= i < |l| && DefinedAt(l, part, i, k, v)
    decreases |l|
  {
    if l != [] {
      hide First;
      var front, last := l[..|l| - 1], l[|l| - 1];
      FirstCollected(front, part, k, v);
      FirstConcat(Collected(front, part), part(last), k);
      assert forall i :: 0 <= i < |front| ==> front[i] == l[i];
      assert forall i :: 0 <= i < |front| ==> (DefinedAt(front, part, i, k, v) <==> DefinedAt(l, part, i, k, v));
      if HasKey(Collected(front, part), k) {
        assert !DefinedAt(l, part, |l| - 1, k, v);
      } else if HasKey(part(last), k) {
        assert HasKey(part(l[|l| - 1]), k);
        assert First(part(last), k) == Some(v) ==> DefinedAt(l, part, |l| - 1, k, v);
      }
    } else {
    }
  }

  lemma {:induction false} CollectedWins<A, K(!new), V(!new)>(l: seq<A>, part: A -> IndexMap<K, V>)
    ensures EarliestWins(l, part, FirstWins(Collected(l, part)))
  {
    hide First, FirstWins, DefinedAt;
    var all := Collected(l, part);
    FirstWinsKeeps(all);
    forall k, v
      ensures (k, v) in FirstWins(all) <==> exists i :: 0 <= i < |l| && DefinedAt(l, part, i, k, v)
    {
      EntryIffFirst(FirstWins(all), k, v);
      FirstCollected(l, part, k, v);
    }
  }

  /** The outcome of loading chunks: an unreadable one fails the whole load; otherwise the first
      definition of the interval, of every sensor and of every event wins, sensors are in ascending
      order of their names, and events in the order in which they are first defined. */
  ghost predicate LoadedFrom<I, C(!new), K(!new), E(!new)>(l: seq<Chunk<I, C, K, E>>, out: Loaded<I, C, K, E>) {
    match out
    case ReadError => exists i :: 0 <= i < |l| && l[i].Unreadable?
    case Loaded(interval, sensors, events) =>
      && (forall i :: 0 <= i < |l| ==> !l[i].Unreadable?)
      && FirstInterval(l, interval)
      && EarliestWins(l, SensorsOf, sensors) && Pairwise(sensors, KeyLt)
      && (events == None ==> forall i :: 0 <= i < |l| ==> EventsOf(l[i]) == [])
      && (events.Some? ==> events.value != [] && EarliestWins(l, EventsOf, events.value)
                           && InOrderOf(events.value, Collected(l, EventsOf)))
  }

  function Contents<I, C, K, E>(chunks: seq<Path>, read: Path -> Chunk<I, C, K, E>): (l: seq<Chunk<I, C, K, E>>)
    ensures |l| == |chunks| && forall i :: 0 <= i < |l| ==> l[i] == read(chunks[i])
  {
    seq(|chunks|, i requires 0 <= i < |chunks| => read(chunks[i]))
  }

  lemma NextInterval<I, C, K, E>(l: seq<Chunk<I, C, K, E>>, i: nat, interval: Option<I>)
    requires i < |l| && FirstInterval(l[..i], interval)
    ensures FirstInterval(l[..i + 1], if interval.None? then IntervalOf(l[i]) else interval)
  {
    hide IntervalOf;
    assert l[..i + 1][i] == l[i] && forall j :: 0 <= j < i ==> l[..i + 1][j] == l[..i][j];
  }

  lemma {:induction false} FirstWinsAgain<K(!new), V>(a: IndexMap<K, V>, b: IndexMap<K, V>)
    ensures FirstWins(FirstWins(a) + b) == FirstWins(a + b)
    decreases |b|
  {
    hide First, FirstWins;
    var r := FirstWins(a);
    FirstWinsKeeps(a);
    if b == [] {
      assert r + b == r && a + b == a;
      FirstWinsOfDistinct(r);
    } else {
      var front, last := b[..|b| - 1], b[|b| - 1];
      FirstWinsAgain(a, front);
      assert r + b == r + front + [last] && a + b == a + front + [last];
      FirstWinsSnoc(r + front, last);
      FirstWinsSnoc(a + front, last);
      FirstConcat(r, front, last.0);
      FirstConcat(a, front, last.0);
    }
  }

  lemma NextPart<A, K(!new), V>(l: seq<A>, part: A -> IndexMap<K, V>, i: nat)
    requires i < |l|
    ensures var r := FirstWins(Collected(l[..i], part));
            && DistinctKeys(r)
            && FirstWins(Collected(l[..i + 1], part)) == FirstWins(r + part(l[i]))
            && (part(l[i]) == [] ==> FirstWins(Collected(l[..i + 1], part)) == r)
  {
    var all := Collected(l[..i], part);
    assert l[..i + 1][..i] == l[..i];
    assert Collected(l[..i + 1], part) == all + part(l[i]);
    hide First, FirstWins, Collected;
    FirstWinsKeeps(all);
    FirstWinsAgain(all, part(l[i]));
    assert all + [] == all;
  }

  /** Without events nothing defines any. */
  lemma {:induction false} NoEntries<A, K(!new), V>(l: seq<A>, part: A -> IndexMap<K, V>)
    requires FirstWins(Collected(l, part)) == []
    ensures forall i :: 0 <= i < |l| ==> part(l[i]) == []
    decreases |l|
  {
    if l != [] {
      var front, last := l[..|l| - 1], l[|l| - 1];
      assert Collected(l, part) == Collected(front, part) + part(last);
      hide Collected;
      NothingWins(Collected(l, part));
      NoEntries(front, part);
    }
  }

  lemma {:induction false} NothingWins<K(!new), V>(l: IndexMap<K, V>)
    ensures FirstWins(l) == [] <==> l == []
  {
    if l != [] {
      FirstWinsKeeps(l);
      assert HasKey(l, l[0].0) && HasKey(FirstWins(l), l[0].0);
    }
  }

  lemma SameEntries<A, K(!new), V(!new)>(l: seq<A>, part: A -> IndexMap<K, V>, a: IndexMap<K, V>, b: IndexMap<K, V>)
    requires EarliestWins(l, part, a) && forall x :: x in a <==> x in b
    ensures EarliestWins(l, part, b)
  {
  }

  /** Where the loop over the chunks stands after the chunks `l`. */
  ghost predicate Folded<I, C, K(!new), E>(
    l: seq<Chunk<I, C, K, E>>, interval: Option<I>, sensors: IndexMap<Key, C>, events: IndexMap<K, E>)
  {
    && (forall i :: 0 <= i < |l| ==> !l[i].Unreadable?)
    && FirstInterval(l, interval)
    && sensors == FirstWins(Collected(l, SensorsOf))
    && events == FirstWins(Collected(l, EventsOf))
  }

  lemma FoldedNothing<I, C, K(!new), E>()
    ensures Folded<I, C, K, E>([], None, [], [])
  {
  }

  lemma {:induction false} FoldedMore<I, C, K(!new), E>(
    l: seq<Chunk<I, C, K, E>>, i: nat, interval: Option<I>, sensors: IndexMap<Key, C>, events: IndexMap<K, E>)
    requires i < |l| && Folded(l[..i], interval, sensors, events)
    ensures DistinctKeys(sensors) && DistinctKeys(events)
    ensures SensorsOf(l[i]) == [] ==> FirstWins(sensors + SensorsOf(l[i])) == sensors
    ensures EventsOf(l[i]) == [] ==> FirstWins(events + EventsOf(l[i])) == events
    ensures !l[i].Unreadable? ==>
              Folded(l[..i + 1], if interval.None? then IntervalOf(l[i]) else interval,
                     FirstWins(sensors + SensorsOf(l[i])), FirstWins(events + EventsOf(l[i])))
  {
    hide First, FirstWins, Collected, FirstInterval, SensorsOf, EventsOf, IntervalOf;
    NextInterval(l, i, interval);
    NextPart(l, SensorsOf, i);
    NextPart(l, EventsOf, i);
    assert forall j :: 0 <= j < i ==> l[..i][j] == l[j];
  }

  lemma FoldedIsLoaded<I, C(!new), K(!new), E(!new)>(
    l: seq<Chunk<I, C, K, E>>, interval: Option<I>, sensors: IndexMap<Key, C>, events: IndexMap<K, E>,
    sorted: IndexMap<Key, C>)
    requires Folded(l, interval, sensors, events)
    requires Pairwise(sorted, KeyLt) && forall x :: x in sorted <==> x in sensors
    ensures LoadedFrom(l, Loaded(interval, sorted, if events != [] then Some(events) else None))
  {
    hide First, FirstWins, Collected, FirstInterval, SensorsOf, EventsOf, Lt, EarliestWins;
    CollectedWins(l, SensorsOf);
    SameEntries(l, SensorsOf, sensors, sorted);
    CollectedWins(l, EventsOf);
    FirstWinsOrder(Collected(l, EventsOf));
    if events == [] {
      NoEntries(l, EventsOf);
    }
  }

  method LoadChunks<I, C(!new), K(==, !new), E(!new)>(chunks: seq<Path>, read: Path -> Chunk<I, C, K, E>)
    returns (out: Loaded<I, C, K, E>)
    ensures LoadedFrom(Contents(chunks, read), out)
  {
    hide First, FirstWins, Collected, Contents, Folded, FirstInterval, EarliestWins, Lt;
    var interval: Option<I> := None;
    var sensors: IndexMap<Key, C> := [];
    var events: IndexMap<K, E> := [];
    ghost var l := Contents(chunks, read);
    FoldedNothing<I, C, K, E>();
    for i := 0 to |chunks|
      invariant Folded(l[..i], interval, sensors, events)
    {
      FoldedMore(l, i, interval, sensors, events);
      match read(chunks[i]) {
        case Unreadable =>
          return ReadError;
        case Invalid =>
        case Parsed(spec, ev) =>
          if spec.Some? {
            if interval.None? {
              interval := spec.value.interval;
            }
            sensors := Merge(sensors, spec.value.items);
          }
          if ev.Some? {
            events := MergeEvents(events, ev.value);
          }
      }
    }
    assert l[..|chunks|] == l;
    DistinctWhenFolded(l, interval, sensors, events);
    var sorted := SortSensors(sensors);
    FoldedIsLoaded(l, interval, sensors, events, sorted);
    out := Loaded(interval, sorted, if events != [] then Some(events) else None);
  }

  lemma DistinctWhenFolded<I, C, K(!new), E>(
    l: seq<Chunk<I, C, K, E>>, interval: Option<I>, sensors: IndexMap<Key, C>, events: IndexMap<K, E>)
    requires Folded(l, interval, sensors, events)
    ensures DistinctKeys(sensors)
  {
    hide FirstWins, Collected;
    FirstWinsKeeps(Collected(l, SensorsOf));
  }

  // ---- the finished specification ----

  /** `rest`: all that the loader does not look at. */
  datatype SensorConf<D, R> = SensorConf(interval: Option<D>, rest: R)

  datatype Outcome<I, D, R, K, E> =
    | ReadFailed
    | EventsRejected
    | Ready(interval: Option<I>, sensors: IndexMap<Key, SensorConf<D, R>>, events: Option<IndexMap<K, E>>)

  /** How an interval is picked for a sensor without one: from the global range, or the built-in range where
      there is none. The number is the sensor's position; picks at different positions may differ. */
  type Pick<!I, D> = (Option<I>, nat) -> D

  function Filled<I, D, R>(l: IndexMap<Key, SensorConf<D, R>>, global: Option<I>, pick: Pick<I, D>)
    : (r: IndexMap<Key, SensorConf<D, R>>)
    ensures |r| == |l|
    ensures forall i :: 0 <= i < |l| ==>
              && r[i].0 == l[i].0 && r[i].1.rest == l[i].1.rest
              && r[i].1.interval == if l[i].1.interval.Some? then l[i].1.interval else Some(pick(global, i))
  {
    seq(|l|, i requires 0 <= i < |l| =>
      (l[i].0, if l[i].1.interval.Some? then l[i].1 else SensorConf(Some(pick(global, i)), l[i].1.rest)))
  }

  /** The last steps of a load: events, if there are any, must parse; then missing intervals are filled in. */
  ghost predicate Finishes<I, D, R, K, E>(
    m: Loaded<I, SensorConf<D, R>, K, E>, accepts: IndexMap<K, E> -> bool, pick: Pick<I, D>,
    out: Outcome<I, D, R, K, E>)
  {
    && (out.ReadFailed? <==> m.ReadError?)
    && (out.EventsRejected? <==> m.Loaded? && m.events.Some? && !accepts(m.events.value))
    && (out.Ready? ==>
          && out.interval == m.interval && out.events == m.events && |out.sensors| == |m.sensors|
          && forall i :: 0 <= i < |m.sensors| ==>
               && out.sensors[i].0 == m.sensors[i].0 && out.sensors[i].1.rest == m.sensors[i].1.rest
               && out.sensors[i].1.interval ==
                  if m.sensors[i].1.interval.Some? then m.sensors[i].1.interval else Some(pick(m.interval, i)))
  }

  method FillIntervals<I, D(!new), R(!new)>(
    sensors: IndexMap<Key, SensorConf<D, R>>, global: Option<I>, pick: Pick<I, D>)
    returns (r: IndexMap<Key, SensorConf<D, R>>)
    ensures r == Filled(sensors, global, pick)
  {
    r := sensors;
    for i := 0 to |sensors|
      invariant |r| == |sensors| && r[..i] == Filled(sensors, global, pick)[..i] && r[i..] == sensors[i..]
    {
      var (k, conf) := r[i];
      assert r[i] == sensors[i];
      if conf.interval.None? {
        r := r[i := (k, conf.(interval := Some(pick(global, i))))];
      }
      assert r[i] == Filled(sensors, global, pick)[i];
      assert r[..i + 1] == r[..i] + [r[i]];
    }
  }

  /** Loads the sensor specification below a directory. */
  method Load<I, D(!new), R(!new), K(==, !new), E(!new)>(
    files: Walk, p: Path, read: Path -> Chunk<I, SensorConf<D, R>, K, E>,
    accepts: IndexMap<K, E> -> bool, pick: Pick<I, D>)
    returns (out: Outcome<I, D, R, K, E>)
    ensures exists roots, m :: AreRoots(roots, files, p) && LoadedFrom(Contents(AllScopes(files, roots), read), m)
                               && Finishes(m, accepts, pick, out)
  {
    hide AreRoots, AllScopes, LoadedFrom;
    var chunks := CollectChunks(files, p);
    var m := LoadChunks(chunks, read);
    match m {
      case ReadError =>
        out := ReadFailed;
      case Loaded(interval, sensors, events) =>
        if events.Some? && !accepts(events.value) {
          out := EventsRejected;
        } else {
          var filled := FillIntervals(sensors, interval, pick);
          out := Ready(interval, filled, events);
        }
    }
    assert Finishes(m, accepts, pick, out);
  }

  function DefinedBefore<K(==), V>(l: IndexMap<K, V>): ((K, V), (K, V)) -> bool {
    (a: (K, V), b: (K, V)) => FirstIndex(l, a.0) < FirstIndex(l, b.0)
  }

  lemma SameWinners<A, K(!new), V(!new)>(l: seq<A>, part: A -> IndexMap<K, V>, a: IndexMap<K, V>, b: IndexMap<K, V>)
    requires EarliestWins(l, part, a) && EarliestWins(l, part, b)
    ensures forall x :: x in a <==> x in b
  {
    hide DefinedAt;
    forall x
      ensures x in a <==> x in b
    {
      assert x == (x.0, x.1);
    }
  }

  lemma {:induction false} EventsDetermined<A, K(!new), V(!new)>(
    l: seq<A>, part: A -> IndexMap<K, V>, a: IndexMap<K, V>, b: IndexMap<K, V>)
    requires EarliestWins(l, part, a) && InOrderOf(a, Collected(l, part))
    requires EarliestWins(l, part, b) && InOrderOf(b, Collected(l, part))
    ensures a == b
  {
    hide FirstIndex, Collected, EarliestWins;
    SameWinners(l, part, a, b);
    OrderedUnique(a, b, DefinedBefore(Collected(l, part)));
  }

  lemma SensorsDetermined<A, V(!new)>(l: seq<A>, part: A -> IndexMap<Key, V>, a: IndexMap<Key, V>, b: IndexMap<Key, V>)
    requires EarliestWins(l, part, a) && Pairwise(a, KeyLt)
    requires EarliestWins(l, part, b) && Pairwise(b, KeyLt)
    ensures a == b
  {
    hide Lt, EarliestWins;
    SameWinners(l, part, a, b);
    forall x: (Key, V), y: (Key, V)
      ensures !(KeyLt(x, y) && KeyLt(y, x))
    {
      LtTotal(x.0, y.0);
    }
    OrderedUnique(a, b, KeyLt);
  }

  lemma WinnerHasPart<A, K(!new), V(!new)>(l: seq<A>, part: A -> IndexMap<K, V>, a: IndexMap<K, V>)
    requires EarliestWins(l, part, a) && a != []
    ensures exists i :: 0 <= i < |l| && part(l[i]) != []
  {
    var (k, v) := a[0];
    assert (k, v) in a;
    var i :| 0 <= i < |l| && DefinedAt(l, part, i, k, v);
  }

  /** The properties required of a load leave no choice: two outcomes for the same chunks are equal. */
  lemma LoadDetermined<I(!new), C(!new), K(!new), E(!new)>(
    l: seq<Chunk<I, C, K, E>>, a: Loaded<I, C, K, E>, b: Loaded<I, C, K, E>)
    requires LoadedFrom(l, a) && LoadedFrom(l, b)
    ensures a == b
  {
    hide EarliestWins, Lt, FirstIndex, EventsOf, SensorsOf, IntervalOf;
    if a.Loaded? && b.Loaded? {
      SensorsDetermined(l, SensorsOf, a.sensors, b.sensors);
      IntervalDetermined(l, a.interval, b.interval);
      if a.events.Some? && b.events.Some? {
        EventsDetermined(l, EventsOf, a.events.value, b.events.value);
      }
      SomeEvents(l, a, b);
      SomeEvents(l, b, a);
    }
  }

  lemma SomeEvents<I, C(!new), K(!new), E(!new)>(
    l: seq<Chunk<I, C, K, E>>, a: Loaded<I, C, K, E>, b: Loaded<I, C, K, E>)
    requires a.Loaded? && b.Loaded? && LoadedFrom(l, a) && LoadedFrom(l, b)
    ensures a.events.Some? ==> b.events.Some?
  {
    hide EarliestWins, Lt, FirstIndex, EventsOf, SensorsOf;
    if a.events.Some? && b.events == None {
      WinnerHasPart(l, EventsOf, a.events.value);
      assert false;
    }
  }

  lemma IntervalDetermined<I, C, K, E>(l: seq<Chunk<I, C, K, E>>, a: Option<I>, b: Option<I>)
    requires FirstInterval(l, a) && FirstInterval(l, b)
    ensures a == b
  {
    hide IntervalOf;
    if a.Some? && b.Some? {
      var i :| 0 <= i < |l| && IntervalOf(l[i]) == a && forall x :: 0 <= x < i ==> IntervalOf(l[x]) == None;
      var j :| 0 <= j < |l| && IntervalOf(l[j]) == b && forall x :: 0 <= x < j ==> IntervalOf(l[x]) == None;
      assert i == j;
    }
  }

  // ---- a load in the fields of the chunks ----

  /** The n-th entry of a chunk's sensors is the first definition of its name. */
  ghost predicate FirstSensor<I, C, K, E>(l: seq<Chunk<I, C, K, E>>, i: nat, n: nat)
    requires i < |l|
  {
    && l[i].Parsed? && l[i].spec.Some? && n < |l[i].spec.value.items|
    && (forall m :: 0 <= m < n ==> l[i].spec.value.items[m].0 != l[i].spec.value.items[n].0)
    && (forall j, m :: 0 <= j < i && l[j].Parsed? && l[j].spec.Some? && 0 <= m < |l[j].spec.value.items| ==>
          l[j].spec.value.items[m].0 != l[i].spec.value.items[n].0)
  }

  /** The same for its events, which only a mapping has. */
  ghost predicate FirstEvent<I, C, K, E>(l: seq<Chunk<I, C, K, E>>, i: nat, n: nat)
    requires i < |l|
  {
    && HasEvents(l[i]) && n < |l[i].events.value.entries|
    && (forall m :: 0 <= m < n ==> l[i].events.value.entries[m].0 != l[i].events.value.entries[n].0)
    && (forall j, m :: 0 <= j < i && HasEvents(l[j]) && 0 <= m < |l[j].events.value.entries| ==>
          l[j].events.value.entries[m].0 != l[i].events.value.entries[n].0)
  }

  predicate HasEvents<I, C, K, E>(c: Chunk<I, C, K, E>) {
    c.Parsed? && c.events.Some? && c.events.value.Mapping?
  }

  predicate HasInterval<I, C, K, E>(c: Chunk<I, C, K, E>) {
    c.Parsed? && c.spec.Some? && c.spec.value.interval.Some?
  }

  ghost predicate FirstPlace<A, K, V>(l: seq<A>, part: A -> IndexMap<K, V>, i: nat, n: nat, k: K, v: V)
    requires i < |l|
  {
    && n < |part(l[i])| && part(l[i])[n] == (k, v)
    && (forall m :: 0 <= m < n ==> part(l[i])[m].0 != k)
    && (forall j, m :: 0 <= j < i && 0 <= m < |part(l[j])| ==> part(l[j])[m].0 != k)
  }

  lemma SensorPlace<I, C, K, E>(l: seq<Chunk<I, C, K, E>>, i: nat, n: nat, k: Key, c: C)
    requires i < |l|
    ensures FirstSensor(l, i, n) && l[i].spec.value.items[n] == (k, c) <==> FirstPlace(l, SensorsOf, i, n, k, c)
  {
    assert forall j :: 0 <= j < |l| ==>
        SensorsOf(l[j]) == if l[j].Parsed? && l[j].spec.Some? then l[j].spec.value.items else [];
    hide SensorsOf;
  }

  lemma EventPlace<I, C, K, E>(l: seq<Chunk<I, C, K, E>>, i: nat, n: nat, k: K, e: E)
    requires i < |l|
    ensures FirstEvent(l, i, n) && l[i].events.value.entries[n] == (k, e) <==> FirstPlace(l, EventsOf, i, n, k, e)
  {
    assert forall j :: 0 <= j < |l| ==> EventsOf(l[j]) == if HasEvents(l[j]) then l[j].events.value.entries else [];
    hide EventsOf, HasEvents;
  }

  lemma {:induction false} DefinedHere<A, K(!new), V(!new)>(l: seq<A>, part: A -> IndexMap<K, V>, i: nat, k: K, v: V)
    requires i < |l|
    ensures DefinedAt(l, part, i, k, v) <==> exists n: nat :: FirstPlace(l, part, i, n, k, v)
  {
    hide First, FirstIndex;
    FirstIndexIsFirst(part(l[i]), k);
    forall j | 0 <= j < i
      ensures HasKey(part(l[j]), k) <==> exists m :: 0 <= m < |part(l[j])| && part(l[j])[m].0 == k
    {
      HasKeyIff(part(l[j]), k);
    }
    if n: nat :| FirstPlace(l, part, i, n, k, v) {
      HasKeyIff(part(l[i]), k);
      assert n == FirstIndex(part(l[i]), k);
    }
    if DefinedAt(l, part, i, k, v) {
      assert FirstPlace(l, part, i, FirstIndex(part(l[i]), k), k, v);
    }
  }

  /** What a load takes, entry by entry: a sensor is there if and only if it is the first in the chunks of its
      name, an event likewise, the interval is the first there is; and there are events if and only if some chunk
      has any. */
  lemma {:induction false} LoadInFields<I(!new), C(!new), K(!new), E(!new)>(
    l: seq<Chunk<I, C, K, E>>, out: Loaded<I, C, K, E>)
    requires LoadedFrom(l, out)
    ensures out.ReadError? <==> exists i :: 0 <= i < |l| && l[i].Unreadable?
    ensures out.Loaded? ==>
              && (forall x :: out.interval == Some(x) <==>
                    exists i :: && 0 <= i < |l| && HasInterval(l[i]) && l[i].spec.value.interval == Some(x)
                                && forall j :: 0 <= j < i ==> !HasInterval(l[j]))
              && (forall k, c :: (k, c) in out.sensors <==>
                    exists i, n: nat :: 0 <= i < |l| && FirstSensor(l, i, n) && l[i].spec.value.items[n] == (k, c))
              && (out.events.Some? <==> exists i :: 0 <= i < |l| && HasEvents(l[i]) && l[i].events.value.entries != [])
    ensures out.Loaded? && out.events.Some? ==>
              forall k, e :: (k, e) in out.events.value <==>
                exists i, n: nat :: 0 <= i < |l| && FirstEvent(l, i, n) && l[i].events.value.entries[n] == (k, e)
  {
    hide First, FirstIndex, Collected, DefinedAt;
    if out.Loaded? {
      forall k, c
        ensures (k, c) in out.sensors <==>
                  exists i, n: nat :: 0 <= i < |l| && FirstSensor(l, i, n) && l[i].spec.value.items[n] == (k, c)
      {
        SensorInFields(l, out.sensors, k, c);
      }
      forall x
        ensures out.interval == Some(x) <==>
                  exists i :: && 0 <= i < |l| && HasInterval(l[i]) && l[i].spec.value.interval == Some(x)
                              && forall j :: 0 <= j < i ==> !HasInterval(l[j])
      {
        IntervalInFields(l, out.interval, x);
      }
      EventsInFields(l, out);
    }
  }

  lemma {:induction false} SensorInFields<I, C(!new), K, E>(
    l: seq<Chunk<I, C, K, E>>, sensors: IndexMap<Key, C>, k: Key, c: C)
    requires EarliestWins(l, SensorsOf, sensors)
    ensures (k, c) in sensors <==>
              exists i, n: nat :: 0 <= i < |l| && FirstSensor(l, i, n) && l[i].spec.value.items[n] == (k, c)
  {
    hide First, DefinedAt;
    forall i | 0 <= i < |l|
      ensures DefinedAt(l, SensorsOf, i, k, c) <==>
                exists n: nat :: FirstSensor(l, i, n) && l[i].spec.value.items[n] == (k, c)
    {
      DefinedHere(l, SensorsOf, i, k, c);
      forall n: nat
        ensures FirstSensor(l, i, n) && l[i].spec.value.items[n] == (k, c) <==> FirstPlace(l, SensorsOf, i, n, k, c)
      {
        SensorPlace(l, i, n, k, c);
      }
    }
  }

  lemma {:induction false} IntervalInFields<I(!new), C, K, E>(l: seq<Chunk<I, C, K, E>>, interval: Option<I>, x: I)
    requires FirstInterval(l, interval)
    ensures interval == Some(x) <==>
              exists i :: && 0 <= i < |l| && HasInterval(l[i]) && l[i].spec.value.interval == Some(x)
                          && forall j :: 0 <= j < i ==> !HasInterval(l[j])
  {
    forall i | 0 <= i < |l|
      ensures IntervalOf(l[i]).Some? <==> HasInterval(l[i])
      ensures HasInterval(l[i]) ==> IntervalOf(l[i]) == l[i].spec.value.interval
    {
    }
    hide IntervalOf, HasInterval;
    if i :| && 0 <= i < |l| && HasInterval(l[i]) && l[i].spec.value.interval == Some(x)
            && forall j :: 0 <= j < i ==> !HasInterval(l[j]) {
      IntervalDetermined(l, interval, Some(x));
    }
  }

  lemma {:induction false} EventsInFields<I, C(!new), K(!new), E(!new)>(
    l: seq<Chunk<I, C, K, E>>, out: Loaded<I, C, K, E>)
    requires LoadedFrom(l, out) && out.Loaded?
    ensures out.events.Some? <==> exists i :: 0 <= i < |l| && HasEvents(l[i]) && l[i].events.value.entries != []
    ensures out.events.Some? ==>
              forall k, e :: (k, e) in out.events.value <==>
                exists i, n: nat :: 0 <= i < |l| && FirstEvent(l, i, n) && l[i].events.value.entries[n] == (k, e)
  {
    hide First, FirstIndex, Collected, DefinedAt, FirstInterval;
    if out.events.Some? {
      WinnerHasPart(l, EventsOf, out.events.value);
      forall k, e
        ensures (k, e) in out.events.value <==>
                  exists i, n: nat :: 0 <= i < |l| && FirstEvent(l, i, n) && l[i].events.value.entries[n] == (k, e)
      {
        forall i | 0 <= i < |l|
          ensures DefinedAt(l, EventsOf, i, k, e) <==>
                    exists n: nat :: FirstEvent(l, i, n) && l[i].events.value.entries[n] == (k, e)
        {
          DefinedHere(l, EventsOf, i, k, e);
          forall n: nat
            ensures FirstEvent(l, i, n) && l[i].events.value.entries[n] == (k, e) <==>
                    FirstPlace(l, EventsOf, i, n, k, e)
          {
            EventPlace(l, i, n, k, e);
          }
        }
      }
    }
  }
}
