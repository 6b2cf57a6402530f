/** What the journal shows of its pending tree: the grouped listing and the counters. */
module JournalView {
  import opened Bytes
  import opened Sorting
  import opened JournalDisk
  import opened JournalSafety
  import opened Trees
  import opened JournalEviction
  import Utf8
  import opened Wrappers
  import opened Writes

  datatype CycleEntry = CycleEntry(s: u64, payload: Payload)
  datatype Cycle = Cycle(id: Key, entries: seq<CycleEntry>)
  datatype Item = Item(id: Key, s: u64, payload: Payload)
  datatype Stats = Stats(cycles: nat, entries: nat, bytes: u64)

  // ---- decoding one key ----

  /** How the listing reads a key; `None` for a key it skips. */
  function Decoded(k: Key): Option<(Key, u64)> {
    var c := LastColon(k);
    if !Visible(k) || c < 0 || |k| < c + 9 then None
    else Some((Utf8.Lossy(k[..c]), FromBe64(k[c + 1..c + 9])))
  }

  /** Splitting at the last colon recovers id and sequence number exactly when no byte of the
      encoded number is 0x3A; all other entries, and those of hidden ids, are skipped. */
  lemma {:induction false} DecodedExact(id: Key, s: u64)
    requires Utf8.Valid(id)
    ensures Decoded(PendingKey(id, s)) ==
            if !(HIDDEN_PREFIX <= id) && COLON !in Be64(s) then Some((id, s)) else None
  {
    hide Be64, FromBe64, Utf8.Lossy, Utf8.Valid, LastColon;
    var k := PendingKey(id, s);
    var b := Be64(s);
    KeyVisible(id, s);
    PendingKeyParts(id, s);
    LastColonOfConcat(id + [COLON], b);
    LastColonOfConcat(id, [COLON]);
    assert [COLON][0] == COLON && LastColon([COLON]) == 0;
    if COLON in b {
      var i :| 0 <= i < |b| && b[i] == COLON;
      assert LastColon(b) >= i;
    } else {
      assert LastColon(b) < 0;
      assert LastColon(k) == |id|;
      assert k[..|id|] == id;
      assert k[|id| + 1..|id| + 9] == b;
      Be64Bijective(s, b);
      Utf8.LossyIdentityIffValid(id);
    }
  }

  // ---- the listing ----

  function ItemOf(d: Disk, k: Key): seq<Item>
    requires k in d.pending
  {
    match Decoded(k)
    case None => []
    case Some(e) => [Item(e.0, e.1, d.pending[k])]
  }

  /** The entries shown for a list of keys, in its order. */
  function Shown(d: Disk, keys: seq<Key>): seq<Item>
    requires forall k :: k in keys ==> k in d.pending
  {
    if keys == [] then []
    else Shown(d, keys[..|keys| - 1]) + ItemOf(d, keys[|keys| - 1])
  }

  function Push(cs: seq<Cycle>, x: Item): seq<Cycle> {
    var e := CycleEntry(x.s, x.payload);
    if cs != [] && cs[|cs| - 1].id == x.id
    then cs[..|cs| - 1] + [Cycle(x.id, cs[|cs| - 1].entries + [e])]
    else cs + [Cycle(x.id, [e])]
  }

  function Grouped(items: seq<Item>): (cs: seq<Cycle>)
    ensures items == [] <==> cs == []
  {
    if items == [] then [] else Push(Grouped(items[..|items| - 1]), items[|items| - 1])
  }

  function Listing(d: Disk): seq<Cycle> {
    Grouped(Shown(d, Ascending(d.pending.Keys)))
  }

  lemma {:induction false} GroupedSnoc(items: seq<Item>, x: Item)
    ensures Grouped(items + [x]) == Push(Grouped(items), x)
  {
    assert (items + [x])[..|items|] == items;
  }

  lemma PushShape(cs: seq<Cycle>, x: Item)
    ensures var r := Push(cs, x);
            && |r| == (if cs != [] && cs[|cs| - 1].id == x.id then |cs| else |cs| + 1)
            && r != [] && r[|r| - 1].id == x.id
  {
  }

  // ---- grouping loses and reorders nothing ----

  function ItemsOf(c: Cycle): seq<Item> {
    seq(|c.entries|, i requires 0 <= i < |c.entries| => Item(c.id, c.entries[i].s, c.entries[i].payload))
  }

  function Flatten(cs: seq<Cycle>): seq<Item> {
    if cs == [] then [] else Flatten(cs[..|cs| - 1]) + ItemsOf(cs[|cs| - 1])
  }

  lemma {:induction false} FlattenSnoc(cs: seq<Cycle>, c: Cycle)
    ensures Flatten(cs + [c]) == Flatten(cs) + ItemsOf(c)
  {
    assert (cs + [c])[..|cs|] == cs;
  }

  lemma {:induction false} PushFlatten(cs: seq<Cycle>, x: Item)
    ensures Flatten(Push(cs, x)) == Flatten(cs) + [x]
  {
    var e := CycleEntry(x.s, x.payload);
    if cs != [] && cs[|cs| - 1].id == x.id {
      var last := cs[|cs| - 1];
      FlattenSnoc(cs[..|cs| - 1], Cycle(x.id, last.entries + [e]));
      assert ItemsOf(Cycle(x.id, last.entries + [e])) == ItemsOf(last) + [x];
      assert Flatten(cs[..|cs| - 1]) + (ItemsOf(last) + [x]) == Flatten(cs[..|cs| - 1]) + ItemsOf(last) + [x];
    } else {
      FlattenSnoc(cs, Cycle(x.id, [e]));
      assert ItemsOf(Cycle(x.id, [e])) == [x];
    }
  }

  /** Concatenating the groups gives back the listed entries in their order. */
  lemma {:induction false} GroupedFlatten(items: seq<Item>)
    ensures Flatten(Grouped(items)) == items
    decreases |items|
  {
    if items != [] {
      hide Push, Flatten, Grouped;
      var front, last := items[..|items| - 1], items[|items| - 1];
      assert items == front + [last];
      GroupedFlatten(front);
      GroupedSnoc(front, last);
      PushFlatten(Grouped(front), last);
    }
  }

  // ---- the listing in key order ----

  ghost predicate KeyOrdered(items: seq<Item>) {
    forall i, j :: 0 <= i < j < |items| ==>
      Lt(PendingKey(items[i].id, items[i].s), PendingKey(items[j].id, items[j].s))
  }

  ghost predicate ColonFree(items: seq<Item>) {
    forall i :: 0 <= i < |items| ==> COLON !in items[i].id
  }

  lemma ColonFreePrefix(id: Key, other: Key, s: u64)
    requires COLON !in id && COLON !in other
    requires CyclePrefix(id) <= PendingKey(other, s)
    ensures id == other
  {
    var k := PendingKey(other, s);
    PrefixAt(id, k);
    assert forall i :: 0 <= i < |other| ==> k[i] == other[i] && k[i] != COLON;
    assert forall i :: 0 <= i < |id| ==> k[i] == id[i] && k[i] != COLON;
    assert k[|other|] == COLON && k[..|other|] == other;
  }

  /** Entries of one cycle stand together. */
  lemma Contiguous(items: seq<Item>, i: nat, j: nat, k: nat)
    requires KeyOrdered(items) && ColonFree(items)
    requires i < j < k < |items| && items[i].id == items[k].id
    ensures items[j].id == items[i].id
  {
    hide Be64, Lt;
    var a := PendingKey(items[i].id, items[i].s);
    var b := PendingKey(items[j].id, items[j].s);
    var c := PendingKey(items[k].id, items[k].s);
    var p := CyclePrefix(items[i].id);
    assert a == p + Be64(items[i].s) && c == p + Be64(items[k].s);
    PrefixIsInterval(p, a, b, c);
    ColonFreePrefix(items[i].id, items[j].id, items[j].s);
  }

  ghost predicate DistinctIds(cs: seq<Cycle>) {
    forall i, j :: 0 <= i < j < |cs| ==> cs[i].id != cs[j].id
  }

  ghost predicate SeqAscending(c: Cycle) {
    && c.entries != []
    && forall i, j :: 0 <= i < j < |c.entries| ==> c.entries[i].s < c.entries[j].s
  }

  ghost predicate AllAscending(cs: seq<Cycle>) {
    forall i :: 0 <= i < |cs| ==> SeqAscending(cs[i])
  }

  /** The last group ends with the last item, and every group's id comes from some item. */
  lemma {:induction false} GroupsFromItems(items: seq<Item>)
    requires items != []
    ensures var cs := Grouped(items);
            var last := cs[|cs| - 1];
            && last.id == items[|items| - 1].id
            && last.entries != [] && last.entries[|last.entries| - 1].s == items[|items| - 1].s
            && (forall g :: 0 <= g < |cs| ==> exists i :: 0 <= i < |items| && items[i].id == cs[g].id)
    decreases |items|
  {
    var front, x := items[..|items| - 1], items[|items| - 1];
    assert items[|items| - 1].id == x.id;
    if front != [] {
      GroupsFromItems(front);
      var cs, ds := Grouped(items), Grouped(front);
      forall g | 0 <= g < |cs|
        ensures exists i :: 0 <= i < |items| && items[i].id == cs[g].id
      {
        if g < |cs| - 1 {
          assert cs[g].id == ds[g].id;
          var i :| 0 <= i < |front| && front[i].id == ds[g].id;
          assert items[i].id == cs[g].id;
        }
      }
    }
  }

  lemma SameCycleSeqOrder(id: Key, s: u64, t: u64)
    ensures Lt(PendingKey(id, s), PendingKey(id, t)) <==> s < t
  {
    hide Be64, Lt;
    var p := id + [COLON];
    LtSamePrefix(p, Be64(s), Be64(t));
    Be64Order(s, t);
  }

  lemma NewIdIsNew(items: seq<Item>, n: nat)
    requires KeyOrdered(items) && ColonFree(items) && 0 < n < |items|
    requires items[n - 1].id != items[n].id
    ensures forall i :: 0 <= i < n ==> items[i].id != items[n].id
  {
    hide KeyOrdered, ColonFree;
    forall i | 0 <= i < n && items[i].id == items[n].id
      ensures i == n - 1
    {
      if i < n - 1 {
        Contiguous(items, i, n - 1, n);
      }
    }
  }

  lemma PushKeepsOrder(ds: seq<Cycle>, x: Item)
    requires DistinctIds(ds) && AllAscending(ds)
    requires forall g :: 0 <= g < |ds| - 1 ==> ds[g].id != x.id
    requires ds != [] && ds[|ds| - 1].id == x.id ==>
               var es := ds[|ds| - 1].entries; es != [] && es[|es| - 1].s < x.s
    ensures DistinctIds(Push(ds, x)) && AllAscending(Push(ds, x))
  {
    if ds != [] && ds[|ds| - 1].id == x.id {
      var last := ds[|ds| - 1];
      assert SeqAscending(last);
      assert SeqAscending(Cycle(x.id, last.entries + [CycleEntry(x.s, x.payload)]));
    } else {
      assert SeqAscending(Cycle(x.id, [CycleEntry(x.s, x.payload)]));
    }
  }

  lemma {:induction false} GroupedDistinct(items: seq<Item>)
    requires KeyOrdered(items) && ColonFree(items)
    ensures DistinctIds(Grouped(items))
    ensures AllAscending(Grouped(items))
    decreases |items|
  {
    hide Lt, PendingKey, Push;
    if items != [] {
      var n := |items| - 1;
      var front, x := items[..n], items[n];
      GroupedDistinct(front);
      var ds := Grouped(front);
      if front != [] {
        GroupsFromItems(front);
        assert front[n - 1] == items[n - 1];
        if items[n - 1].id == x.id {
          SameCycleSeqOrder(x.id, items[n - 1].s, x.s);
        } else {
          NewIdIsNew(items, n);
        }
      }
      forall g | 0 <= g < |ds| - 1
        ensures ds[g].id != x.id
      {
        var i :| 0 <= i < |front| && front[i].id == ds[g].id;
        assert items[i] == front[i];
      }
      PushKeepsOrder(ds, x);
    }
  }

  // ---- from the disk to the listing ----

  /** Ids are text, so every key begins with well-formed UTF-8. */
  ghost predicate TextIds(d: Disk) {
    && WellKeyed(d)
    && forall k :: k in Entries(d) ==> Utf8.Valid(KeyId(k))
  }

  ghost predicate ColonFreeIds(d: Disk)
    requires WellKeyed(d)
  {
    forall k :: k in Entries(d) ==> COLON !in KeyId(k)
  }

  /** The entries that the listing is bound to show. */
  ghost predicate Showable(d: Disk, id: Key, s: u64, p: Payload) {
    var k := PendingKey(id, s);
    k in Entries(d) && d.pending[k] == p && !(HIDDEN_PREFIX <= id) && COLON !in Be64(s)
  }

  lemma ItemOfExact(d: Disk, k: Key)
    requires TextIds(d) && k in d.pending
    ensures forall x :: x in ItemOf(d, k) <==> k == PendingKey(x.id, x.s) && Showable(d, x.id, x.s, x.payload)
    ensures |ItemOf(d, k)| <= 1
    ensures ItemOf(d, k) == [] <==> k !in Entries(d) || HIDDEN_PREFIX <= KeyId(k) || COLON in Be64(KeySeq(k))
  {
    hide Be64, FromBe64, Utf8.Lossy, Utf8.Valid;
    if k == TOTAL_KEY {
      assert HIDDEN_PREFIX <= TOTAL_KEY;
      forall x: Item
        ensures PendingKey(x.id, x.s) != TOTAL_KEY
      {
        PendingKeyParts(x.id, x.s);
      }
    } else {
      assert k in Entries(d);
      PendingKeyOfParts(k);
      DecodedExact(KeyId(k), KeySeq(k));
      forall x: Item | k == PendingKey(x.id, x.s)
        ensures x.id == KeyId(k) && x.s == KeySeq(k)
      {
        PendingKeyParts(x.id, x.s);
      }
    }
  }

  lemma {:induction false} ShownExact(d: Disk, keys: seq<Key>)
    requires TextIds(d)
    requires forall k :: k in keys ==> k in d.pending
    ensures forall x :: x in Shown(d, keys) <==> PendingKey(x.id, x.s) in keys && Showable(d, x.id, x.s, x.payload)
    decreases |keys|
  {
    hide Showable, TextIds, ItemOf, PendingKey;
    if keys != [] {
      var n := |keys| - 1;
      var front, k := keys[..n], keys[n];
      ShownExact(d, front);
      ItemOfExact(d, k);
      assert Shown(d, keys) == Shown(d, front) + ItemOf(d, k);
      assert keys == front + [k];
    }
  }

  lemma {:induction false} ShownOrdered(d: Disk, keys: seq<Key>)
    requires TextIds(d) && StrictlyAscending(keys)
    requires forall k :: k in keys ==> k in d.pending
    ensures KeyOrdered(Shown(d, keys))
    decreases |keys|
  {
    hide Showable, TextIds, ItemOf, PendingKey, Lt;
    if keys != [] {
      var n := |keys| - 1;
      var front, k := keys[..n], keys[n];
      ShownOrdered(d, front);
      ShownExact(d, front);
      ItemOfExact(d, k);
      var olds, news := Shown(d, front), ItemOf(d, k);
      assert Shown(d, keys) == olds + news;
      forall i | 0 <= i < |olds|
        ensures Lt(PendingKey(olds[i].id, olds[i].s), k)
      {
        assert olds[i] in olds;
        var m :| 0 <= m < |front| && front[m] == PendingKey(olds[i].id, olds[i].s);
        assert keys[m] == front[m];
      }
      if news != [] {
        assert news[0] in news;
      }
    }
  }

  /** The i-th entry of the g-th cycle. */
  predicate ItemAt(cs: seq<Cycle>, g: int, i: int, x: Item) {
    && 0 <= g < |cs| && 0 <= i < |cs[g].entries|
    && x == Item(cs[g].id, cs[g].entries[i].s, cs[g].entries[i].payload)
  }

  lemma {:induction false} FlattenMembers(cs: seq<Cycle>, x: Item)
    ensures x in Flatten(cs) <==> exists g, i :: ItemAt(cs, g, i, x)
    decreases |cs|
  {
    if cs != [] {
      hide ItemsOf;
      var n := |cs| - 1;
      FlattenMembers(cs[..n], x);
      ItemsOfMembers(cs[n], x);
      forall g, i
        ensures ItemAt(cs, g, i, x) && g != n <==> ItemAt(cs[..n], g, i, x)
      {
      }
      if i :| ItemIn(cs[n], i, x) {
        assert ItemAt(cs, n, i, x);
      }
      if i :| ItemAt(cs, n, i, x) {
        assert ItemIn(cs[n], i, x);
      }
    }
  }

  predicate ItemIn(c: Cycle, i: int, x: Item) {
    0 <= i < |c.entries| && x == Item(c.id, c.entries[i].s, c.entries[i].payload)
  }

  lemma ItemsOfMembers(c: Cycle, x: Item)
    ensures x in ItemsOf(c) <==> exists i :: ItemIn(c, i, x)
  {
    if i :| ItemIn(c, i, x) {
      assert ItemsOf(c)[i] == x;
    }
    if x in ItemsOf(c) {
      var i :| 0 <= i < |ItemsOf(c)| && ItemsOf(c)[i] == x;
      assert ItemIn(c, i, x);
    }
  }

  /** The listing shows exactly the showable entries, for any ids at all. */
  lemma ListingComplete(d: Disk, x: Item)
    requires TextIds(d)
    ensures (exists g, i :: 0 <= g < |Listing(d)| && 0 <= i < |Listing(d)[g].entries|
               && x == Item(Listing(d)[g].id, Listing(d)[g].entries[i].s, Listing(d)[g].entries[i].payload))
            <==> Showable(d, x.id, x.s, x.payload)
  {
    hide Be64, TextIds, Grouped, Shown, Flatten;
    var keys := Ascending(d.pending.Keys);
    ShownExact(d, keys);
    GroupedFlatten(Shown(d, keys));
    FlattenMembers(Listing(d), x);
    var cs := Listing(d);
    assert forall g, i :: ItemAt(cs, g, i, x) <==>
        0 <= g < |cs| && 0 <= i < |cs[g].entries|
        && x == Item(cs[g].id, cs[g].entries[i].s, cs[g].entries[i].payload);
    hide ItemAt;
  }

  /** With colon-free ids every cycle is listed once, with its numbers ascending. */
  lemma ListingOrdered(d: Disk)
    requires TextIds(d) && ColonFreeIds(d)
    ensures DistinctIds(Listing(d)) && AllAscending(Listing(d))
  {
    hide Be64, Grouped, Shown;
    var keys := Ascending(d.pending.Keys);
    ShownExact(d, keys);
    ShownOrdered(d, keys);
    var items := Shown(d, keys);
    forall i | 0 <= i < |items|
      ensures COLON !in items[i].id
    {
      assert items[i] in items;
      PendingKeyParts(items[i].id, items[i].s);
    }
    GroupedDistinct(items);
  }

  // ---- counters ----

  /** The id under which the counters file a key; they do not look at the sequence bytes. */
  function CountedId(k: Key): Option<Key> {
    var c := LastColon(k);
    if !Visible(k) || c < 0 then None else Some(Utf8.Lossy(k[..c]))
  }

  datatype Tallied = Tallied(cycles: nat, entries: nat, last: Option<Key>)

  /** One key further: a key that counts adds an entry, and a cycle if its id is not the last one counted. */
  function TallyStep(t: Tallied, k: Key): Tallied {
    match CountedId(k)
    case None => t
    case Some(id) => Tallied(if t.last == Some(id) then t.cycles else t.cycles + 1, t.entries + 1, Some(id))
  }

  function Tally(keys: seq<Key>): Tallied {
    if keys == [] then Tallied(0, 0, None) else TallyStep(Tally(keys[..|keys| - 1]), keys[|keys| - 1])
  }

  function StatsOf(d: Disk): Stats {
    var t := Tally(Ascending(d.pending.Keys));
    Stats(t.cycles, t.entries, Recorded(d))
  }

  /** No visible entry has a 0x3A byte in its sequence number. */
  ghost predicate PlainSeqs(d: Disk, keys: seq<Key>)
    requires TextIds(d)
  {
    forall k :: k in keys && k in Entries(d) && Visible(k) ==> COLON !in Be64(KeySeq(k))
  }

  lemma CountedExact(d: Disk, k: Key)
    requires TextIds(d) && k in d.pending
    ensures CountedId(k).Some? <==> k in Entries(d) && Visible(k)
    ensures Decoded(k).Some? ==> CountedId(k) == Some(Decoded(k).value.0)
    ensures CountedId(k).Some? ==> (Decoded(k).Some? <==> COLON !in Be64(KeySeq(k)))
  {
    hide Be64, FromBe64, Utf8.Lossy, Utf8.Valid;
    if k == TOTAL_KEY {
      assert HIDDEN_PREFIX <= TOTAL_KEY;
    } else {
      assert k in Entries(d);
      PendingKeyOfParts(k);
      DecodedExact(KeyId(k), KeySeq(k));
      KeyVisible(KeyId(k), KeySeq(k));
      assert k[|k| - 9] == COLON;
    }
  }

  lemma PlainSnoc(d: Disk, front: seq<Key>, k: Key)
    requires TextIds(d) && k in d.pending
    ensures PlainSeqs(d, front + [k]) <==> PlainSeqs(d, front) && (CountedId(k).Some? ==> Decoded(k).Some?)
  {
    hide Be64, TextIds, Visible, Decoded, CountedId, Entries;
    CountedExact(d, k);
    var keys := front + [k];
    assert keys[|front|] == k;
    assert forall y :: y in keys <==> y in front || y == k;
  }

  lemma {:induction false} TallySnoc(front: seq<Key>, k: Key)
    ensures Tally(front + [k]) == TallyStep(Tally(front), k)
  {
    assert (front + [k])[..|front|] == front;
  }

  lemma {:induction false} ShownSnoc(d: Disk, front: seq<Key>, k: Key)
    requires forall x :: x in front + [k] ==> x in d.pending
    ensures k in d.pending
    ensures Shown(d, front + [k]) == Shown(d, front) + ItemOf(d, k)
  {
    assert (front + [k])[..|front|] == front && (front + [k])[|front|] == k;
  }

  lemma {:induction false} TallyCounts(d: Disk, keys: seq<Key>)
    requires TextIds(d)
    requires forall k :: k in keys ==> k in d.pending
    ensures |Shown(d, keys)| <= Tally(keys).entries
    ensures |Shown(d, keys)| == Tally(keys).entries <==> PlainSeqs(d, keys)
    decreases |keys|
  {
    if keys != [] {
      hide TextIds, Decoded, CountedId, PlainSeqs, Shown, Tally, Entries, Visible, Be64;
      var front, k := keys[..|keys| - 1], keys[|keys| - 1];
      assert keys == front + [k];
      TallyCounts(d, front);
      CountedExact(d, k);
      ShownSnoc(d, front, k);
      TallySnoc(front, k);
      PlainSnoc(d, front, k);
    }
  }

  ghost predicate CyclesMatch(t: Tallied, cs: seq<Cycle>) {
    t.cycles == |cs| && t.last == if cs == [] then None else Some(cs[|cs| - 1].id)
  }

  /** One key further: both counts stay, or both move by the same rule. */
  lemma CountStep(t: Tallied, cs: seq<Cycle>, x: Item)
    requires CyclesMatch(t, cs)
    ensures var cycles := if t.last == Some(x.id) then t.cycles else t.cycles + 1;
            CyclesMatch(Tallied(cycles, t.entries + 1, Some(x.id)), Push(cs, x))
  {
    PushShape(cs, x);
  }

  lemma {:induction false} CyclesStep(d: Disk, front: seq<Key>, k: Key)
    requires TextIds(d) && PlainSeqs(d, front + [k])
    requires forall x :: x in front + [k] ==> x in d.pending
    requires CyclesMatch(Tally(front), Grouped(Shown(d, front)))
    ensures CyclesMatch(Tally(front + [k]), Grouped(Shown(d, front + [k])))
  {
    hide TextIds, Decoded, CountedId, PlainSeqs, Grouped, Push, Shown, Tally, CyclesMatch;
    hide Be64, KeySeq, Visible, Entries;
    TallySnoc(front, k);
    ShownSnoc(d, front, k);
    PlainSnoc(d, front, k);
    CountedExact(d, k);
    var olds := Shown(d, front);
    if Decoded(k).None? {
      assert ItemOf(d, k) == [] && olds + [] == olds;
    } else {
      var x := Item(Decoded(k).value.0, Decoded(k).value.1, d.pending[k]);
      assert ItemOf(d, k) == [x];
      GroupedSnoc(olds, x);
      CountStep(Tally(front), Grouped(olds), x);
    }
  }

  lemma {:induction false} TallyCycles(d: Disk, keys: seq<Key>)
    requires TextIds(d) && PlainSeqs(d, keys)
    requires forall k :: k in keys ==> k in d.pending
    ensures CyclesMatch(Tally(keys), Grouped(Shown(d, keys)))
    decreases |keys|
  {
    if keys != [] {
      hide TextIds, PlainSeqs, Grouped, Shown, Tally, CyclesMatch;
      var n := |keys| - 1;
      assert keys == keys[..n] + [keys[n]];
      PlainSnoc(d, keys[..n], keys[n]);
      TallyCycles(d, keys[..n]);
      CyclesStep(d, keys[..n], keys[n]);
    }
  }

  /** The entry counter agrees with the listing if and only if no visible entry's number has a 0x3A
      byte, and then so does the cycle counter. */
  lemma StatsAgree(d: Disk)
    requires TextIds(d)
    ensures var keys := Ascending(d.pending.Keys);
            && (StatsOf(d).entries == |Flatten(Listing(d))| <==> PlainSeqs(d, keys))
            && (PlainSeqs(d, keys) ==> StatsOf(d).cycles == |Listing(d)|)
            && (Exact(d) ==> StatsOf(d).bytes == Sum(d))
  {
    hide Be64, TextIds, Grouped, Shown, Flatten, Tally, PlainSeqs;
    var keys := Ascending(d.pending.Keys);
    TallyCounts(d, keys);
    if PlainSeqs(d, keys) {
      TallyCycles(d, keys);
    }
    GroupedFlatten(Shown(d, keys));
  }

  // ---- one cycle over time ----

  function CycleKeys(d: Disk, id: Key): set<Key> {
    set k | k in d.pending && k != TOTAL_KEY && IsEntryKey(k) && KeyId(k) == id
  }

  function EntryAt(d: Disk, k: Key): CycleEntry
    requires k in d.pending && IsEntryKey(k)
  {
    CycleEntry(KeySeq(k), d.pending[k])
  }

  /** The pending entries of one cycle, in key order. */
  function Backlog(d: Disk, id: Key): seq<CycleEntry> {
    var keys := Ascending(CycleKeys(d, id));
    seq(|keys|, i requires 0 <= i < |keys| => assert keys[i] in keys; EntryAt(d, keys[i]))
  }

  predicate BySeq(a: CycleEntry, b: CycleEntry) {
    a.s < b.s
  }

  predicate Holds(d: Disk, id: Key, e: CycleEntry) {
    var k := PendingKey(id, e.s);
    k in d.pending && d.pending[k] == e.payload
  }

  lemma BacklogContents(d: Disk, id: Key)
    ensures forall e :: e in Backlog(d, id) <==> Holds(d, id, e)
  {
    hide Be64, FromBe64, Ascending, PendingKey, KeySeq, KeyId, IsEntryKey;
    var keys, l := Ascending(CycleKeys(d, id)), Backlog(d, id);
    forall e
      ensures e in l <==> Holds(d, id, e)
    {
      var k := PendingKey(id, e.s);
      PendingKeyParts(id, e.s);
      if e in l {
        var i :| 0 <= i < |l| && l[i] == e;
        assert keys[i] in keys;
        PendingKeyOfParts(keys[i]);
      }
      if Holds(d, id, e) {
        assert k in keys;
        var i :| 0 <= i < |keys| && keys[i] == k;
        assert l[i] == e;
      }
    }
  }

  lemma BacklogAscends(d: Disk, id: Key)
    ensures Pairwise(Backlog(d, id), BySeq)
  {
    hide Be64, FromBe64, Ascending, PendingKey, KeySeq, KeyId, IsEntryKey, Lt;
    var keys, l := Ascending(CycleKeys(d, id)), Backlog(d, id);
    forall i, j | 0 <= i < j < |l|
      ensures BySeq(l[i], l[j])
    {
      assert keys[i] in keys && keys[j] in keys;
      PendingKeyOfParts(keys[i]);
      PendingKeyOfParts(keys[j]);
      SameCycleSeqOrder(id, KeySeq(keys[i]), KeySeq(keys[j]));
    }
  }

  /** A backlog is determined by what it holds. */
  lemma BacklogIs(d: Disk, id: Key, l: seq<CycleEntry>)
    requires Pairwise(l, BySeq) && forall e :: e in l <==> Holds(d, id, e)
    ensures Backlog(d, id) == l
  {
    hide Backlog, Holds;
    BacklogContents(d, id);
    BacklogAscends(d, id);
    OrderedUnique(Backlog(d, id), l, BySeq);
  }

  /** An append puts its payload behind everything the cycle still has pending and touches no other
      cycle: key order within a cycle is insertion order. */
  lemma {:induction false} AppendGoesLast(d: Disk, id: Key, p: Payload, n: int, other: Key)
    requires Safe(d) && NextAtMost(d, n) && n + 1 < U64_LIMIT
    ensures var d' := ApplyAll(d, AppendWrites(d, id, p), Apply);
            && Backlog(d', id) == Backlog(d, id) + [CycleEntry(Next(d, id), p)]
            && (other != id ==> Backlog(d', other) == Backlog(d, other))
  {
    hide AppendWrites, ApplyAll, Safe, NextAtMost, Appended, Next, Sum, Recorded;
    AppendEffect(d, id, p, n);
    var d' := ApplyAll(d, AppendWrites(d, id, p), Apply);
    EntriesKeys(d);
    EntriesKeys(d');
    OneMoreHeld(d, d', id, CycleEntry(Next(d, id), p), id);
    OneMoreHeld(d, d', id, CycleEntry(Next(d, id), p), other);
    NumbersBelowNext(d, id);
    BacklogWithOneMore(d, d', id, CycleEntry(Next(d, id), p));
    if other != id {
      hide Backlog, Holds;
      BacklogContents(d, other);
      BacklogAscends(d, other);
      BacklogIs(d', other, Backlog(d, other));
    }
  }

  lemma OneMoreHeld(d: Disk, d': Disk, id: Key, x: CycleEntry, other: Key)
    requires PendingKey(id, x.s) !in Entries(d)
    requires Entries(d') == Entries(d)[PendingKey(id, x.s) := x.payload]
    ensures forall e :: Holds(d', other, e) <==> Holds(d, other, e) || (other == id && e == x)
  {
    hide Be64, PendingKey;
    EntriesKeys(d);
    EntriesKeys(d');
    forall e
      ensures Holds(d', other, e) <==> Holds(d, other, e) || (other == id && e == x)
    {
      PendingKeyInjective(other, e.s, id, x.s);
      PendingKeyParts(other, e.s);
      var k := PendingKey(other, e.s);
      assert k in Entries(d') <==> k in Entries(d) || k == PendingKey(id, x.s);
    }
  }

  lemma NumbersBelowNext(d: Disk, id: Key)
    requires Safe(d)
    ensures forall e :: Holds(d, id, e) ==> e.s < Next(d, id)
  {
    hide Be64, FromBe64, SumLens, PendingKey;
    forall e | Holds(d, id, e)
      ensures e.s < Next(d, id)
    {
      PendingKeyParts(id, e.s);
      assert PendingKey(id, e.s) in Entries(d);
    }
  }

  lemma BacklogWithOneMore(d: Disk, d': Disk, id: Key, x: CycleEntry)
    requires forall e :: Holds(d', id, e) <==> Holds(d, id, e) || e == x
    requires forall e :: Holds(d, id, e) ==> e.s < x.s
    ensures Backlog(d', id) == Backlog(d, id) + [x]
  {
    hide Backlog, Holds;
    BacklogContents(d, id);
    BacklogAscends(d, id);
    SnocPairwise(Backlog(d, id), x, BySeq);
    BacklogIs(d', id, Backlog(d, id) + [x]);
  }

  lemma EntriesKeys(d: Disk)
    ensures forall k :: k in Entries(d) <==> k in d.pending && k != TOTAL_KEY
    ensures forall k :: k in Entries(d) ==> Entries(d)[k] == d.pending[k]
  {
  }

  lemma CycleKeysUnderPrefix(d: Disk, id: Key)
    requires WellKeyed(d)
    ensures forall k :: k in CycleKeys(d, id) ==> k in Entries(d) && CyclePrefix(id) <= k
    ensures ColonFreeIds(d) && COLON !in id ==>
              forall k :: k in Entries(d) && CyclePrefix(id) <= k ==> KeyId(k) == id
  {
    hide Be64, FromBe64, PendingKey, KeySeq;
    forall k | k in Entries(d)
      ensures k in CycleKeys(d, id) ==> CyclePrefix(id) <= k
      ensures ColonFreeIds(d) && COLON !in id && CyclePrefix(id) <= k ==> KeyId(k) == id
    {
      PendingKeyOfParts(k);
      if ColonFreeIds(d) && COLON !in id && CyclePrefix(id) <= k {
        ColonFreePrefix(id, KeyId(k), KeySeq(k));
      }
    }
    EntriesKeys(d);
  }

  /** An acknowledgement frees the cycle's entries and no others exactly when no other pending id
      continues this one after a colon; with colon-free ids that is always so. */
  lemma {:induction false} AckFreesOneCycle(d: Disk, id: Key)
    requires Safe(d)
    ensures var d' := ApplyAll(d, AckInnerWrites(d, id), Apply);
            && CycleKeys(d', id) == {}
            && (Entries(d') == Entries(d) - CycleKeys(d, id)
                <==> forall k :: k in Entries(d) && CyclePrefix(id) <= k ==> KeyId(k) == id)
            && (ColonFreeIds(d) && COLON !in id ==> Entries(d') == Entries(d) - CycleKeys(d, id))
  {
    hide AckInnerWrites, ApplyAll, Fresh, AckedClear, Recorded, SumLens, ColonFreeIds, CyclePrefix, IsEntryKey, KeyId;
    AckEffect(d, id);
    var d' := ApplyAll(d, AckInnerWrites(d, id), Apply);
    CycleKeysUnderPrefix(d, id);
    CycleKeysUnderPrefix(d', id);
    EntriesKeys(d);
    var gone := set k | k in Entries(d) && CyclePrefix(id) <= k;
    var own := CycleKeys(d, id);
    assert forall k :: k in Entries(d) && k in gone && k !in own ==> KeyId(k) != id;
    assert own <= gone;
    assert forall k :: k in Entries(d') <==> k in Entries(d) && k !in gone;
    assert Entries(d') == Entries(d) - own <==> gone == own by { SameRest(Entries(d), gone, own); }
  }

  lemma SameRest(t: Tree, gone: set<Key>, own: set<Key>)
    requires own <= gone <= t.Keys
    ensures t - gone == t - own <==> gone == own
  {
    if t - gone == t - own {
      forall k | k in gone
        ensures k in own
      {
        assert k !in t - gone;
      }
    }
  }
}
