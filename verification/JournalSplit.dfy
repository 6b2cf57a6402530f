/** Exactly when the listing shows a cycle more than once. */
module JournalSplit {
  import opened Bytes
  import opened JournalDisk
  import opened JournalSafety
  import opened JournalEviction
  import opened JournalView
  import opened JournalHistory
  import Utf8
  import opened Trees

  /** Items of one id stand together. */
  ghost predicate Together(items: seq<Item>) {
    forall i, j, k :: 0 <= i < j < k < |items| && items[i].id == items[k].id ==> items[j].id == items[i].id
  }

  lemma {:induction false} GroupIdsComplete(items: seq<Item>, i: nat)
    requires i < |items|
    ensures exists g :: 0 <= g < |Grouped(items)| && Grouped(items)[g].id == items[i].id
    decreases |items|
  {
    hide Push;
    var n := |items| - 1;
    var ds := Grouped(items[..n]);
    PushShape(ds, items[n]);
    PushKeepsIds(ds, items[n]);
    if i < n {
      GroupIdsComplete(items[..n], i);
      var g :| 0 <= g < |ds| && ds[g].id == items[..n][i].id;
      assert Grouped(items)[g].id == items[i].id;
    } else {
      assert Grouped(items)[|Grouped(items)| - 1].id == items[i].id;
    }
  }

  lemma PushKeepsIds(cs: seq<Cycle>, x: Item)
    ensures |Push(cs, x)| >= |cs| && forall g :: 0 <= g < |cs| ==> Push(cs, x)[g].id == cs[g].id
  {
  }

  ghost predicate HasItem(items: seq<Item>, id: Key) {
    exists i :: 0 <= i < |items| && items[i].id == id
  }

  ghost predicate HasGroup(cs: seq<Cycle>, id: Key) {
    exists g :: 0 <= g < |cs| && cs[g].id == id
  }

  lemma TogetherSnoc(front: seq<Item>, x: Item)
    requires front != []
    ensures Together(front + [x]) <==> Together(front) && (front[|front| - 1].id == x.id || !HasItem(front, x.id))
  {
    var n := |front|;
    var items := front + [x];
    assert forall i :: 0 <= i < n ==> front[i] == items[i];
    if Together(items) {
      assert Together(front);
      if i :| 0 <= i < n - 1 && front[i].id == x.id {
        assert items[i].id == items[n].id;
        assert items[n - 1].id == items[i].id;
      }
    }
    if Together(front) && front[n - 1].id == x.id {
      forall i, j, k | 0 <= i < j < k < |items| && items[i].id == items[k].id
        ensures items[j].id == items[i].id
      {
        assert k == n && j < n - 1 ==> front[i].id == front[n - 1].id;
      }
    }
  }

  lemma DistinctPush(ds: seq<Cycle>, x: Item)
    requires ds != []
    ensures DistinctIds(Push(ds, x)) <==> DistinctIds(ds) && (ds[|ds| - 1].id == x.id || !HasGroup(ds, x.id))
  {
    hide Push;
    PushShape(ds, x);
    PushKeepsIds(ds, x);
    var cs := Push(ds, x);
    if DistinctIds(cs) {
      forall i, j | 0 <= i < j < |ds|
        ensures ds[i].id != ds[j].id
      {
        assert cs[i].id != cs[j].id;
      }
      if |cs| > |ds| {
        forall g | 0 <= g < |ds|
          ensures ds[g].id != x.id
        {
          assert cs[g].id != cs[|ds|].id;
        }
      }
    }
  }

  /** Grouping consecutive items lists every id once exactly when the items of each id stand together. */
  lemma {:induction false} GroupedOnceIff(items: seq<Item>)
    ensures DistinctIds(Grouped(items)) <==> Together(items)
    decreases |items|
  {
    if |items| == 1 {
      OneGroup(items);
    } else if items != [] {
      hide Push, Together, DistinctIds, HasItem, HasGroup, Grouped;
      var n := |items| - 1;
      var front, x := items[..n], items[n];
      assert items == front + [x];
      GroupedOnceIff(front);
      GroupedSnoc(front, x);
      GroupsFromItems(front);
      TogetherSnoc(front, x);
      DistinctPush(Grouped(front), x);
      SameIds(front, x.id);
    }
  }

  lemma {:induction false} OneGroup(items: seq<Item>)
    requires |items| == 1
    ensures |Grouped(items)| == 1
  {
    assert Grouped(items[..0]) == [];
  }

  lemma {:induction false} SameIds(items: seq<Item>, id: Key)
    requires items != []
    ensures HasGroup(Grouped(items), id) <==> HasItem(items, id)
  {
    hide Grouped;
    GroupsFromItems(items);
    if i :| 0 <= i < |items| && items[i].id == id {
      GroupIdsComplete(items, i);
    }
  }

  // ---- in terms of the pending entries ----

  /** An entry of `id + ":" + r` that is shown between two shown entries of `id`. */
  ghost predicate Splits(d: Disk, id: Key, s1: u64, r: Key, t: u64, s2: u64) {
    && Shows(d, id, s1) && Shows(d, id, s2) && Shows(d, id + [COLON] + r, t)
    && Lt(Be64(s1), r + [COLON] + Be64(t)) && Lt(r + [COLON] + Be64(t), Be64(s2))
  }

  /** The listing shows the entry. */
  ghost predicate Shows(d: Disk, id: Key, s: u64) {
    PendingKey(id, s) in Entries(d) && !(HIDDEN_PREFIX <= id) && COLON !in Be64(s)
  }

  lemma {:induction false} ShownItems(d: Disk)
    requires TextIds(d)
    ensures var items := Shown(d, Ascending(d.pending.Keys));
            && KeyOrdered(items)
            && (forall i :: 0 <= i < |items| ==> Shows(d, items[i].id, items[i].s))
            && (forall id, s :: Shows(d, id, s) ==>
                  exists i :: 0 <= i < |items| && items[i].id == id && items[i].s == s)
  {
    hide Be64, PendingKey, Shown, TextIds, Lt;
    var keys := Ascending(d.pending.Keys);
    ShownExact(d, keys);
    ShownOrdered(d, keys);
    var items := Shown(d, keys);
    forall i | 0 <= i < |items|
      ensures Shows(d, items[i].id, items[i].s)
    {
      assert items[i] in items;
    }
    forall id, s | Shows(d, id, s)
      ensures exists i :: 0 <= i < |items| && items[i].id == id && items[i].s == s
    {
      var x := Item(id, s, d.pending[PendingKey(id, s)]);
      assert x in items;
    }
  }

  /** What lies between two entries of one id belongs to it or to an id that continues it after a colon. */
  lemma BetweenContinues(id: Key, s1: u64, other: Key, t: u64, s2: u64)
    requires COLON !in Be64(t)
    requires Lt(PendingKey(id, s1), PendingKey(other, t)) && Lt(PendingKey(other, t), PendingKey(id, s2))
    ensures other == id || exists r :: other == id + [COLON] + r
  {
    hide Lt, Be64;
    var p, b := CyclePrefix(id), PendingKey(other, t);
    PrefixIsInterval(p, PendingKey(id, s1), b, PendingKey(id, s2));
    PrefixAt(id, b);
    assert b[..|other|] == other && b[|other|] == COLON && b[|other| + 1..] == Be64(t);
    assert forall i :: |other| < i < |b| ==> b[i] == Be64(t)[i - |other| - 1];
    assert |id| <= |other|;
    if |id| == |other| {
      assert other == id;
    } else {
      assert other[|id|] == b[|id|] && other[..|id|] == b[..|id|];
      assert other == id + [COLON] + other[|id| + 1..];
    }
  }

  lemma {:induction false} SplitsBetween(id: Key, s: u64, r: Key, t: u64)
    ensures Lt(PendingKey(id, s), PendingKey(id + [COLON] + r, t)) <==> Lt(Be64(s), r + [COLON] + Be64(t))
    ensures Lt(PendingKey(id + [COLON] + r, t), PendingKey(id, s)) <==> Lt(r + [COLON] + Be64(t), Be64(s))
  {
    hide Lt, Be64;
    var p, q := CyclePrefix(id), r + [COLON] + Be64(t);
    assert PendingKey(id + [COLON] + r, t) == p + q;
    assert PendingKey(id, s) == p + Be64(s);
    LtSamePrefix(p, Be64(s), q);
    LtSamePrefix(p, q, Be64(s));
  }

  /** A cycle is listed more than once if and only if some id continues another after a colon and a shown
      entry of the longer one falls between two shown entries of the shorter one. */
  lemma ListedOnceIff(d: Disk)
    requires TextIds(d)
    ensures DistinctIds(Listing(d)) <==> !exists id, s1, r, t, s2 :: Splits(d, id, s1, r, t, s2)
  {
    hide Grouped, Shown, Be64, Lt, PendingKey, Together, Splits, TextIds;
    var items := Shown(d, Ascending(d.pending.Keys));
    GroupedOnceIff(items);
    ShownItems(d);
    if id, s1, r, t, s2 :| Splits(d, id, s1, r, t, s2) {
      SplitIsApart(d, items, id, s1, r, t, s2);
    }
    if !Together(items) {
      var id, s1, r, t, s2 := ApartIsSplit(d, items);
    }
  }

  /** That holds after every run, stopped anywhere, whose appended ids are text, colons or not. */
  lemma {:induction false} RunListedOnceIff(max: u64, steps: seq<Step>)
    requires Appends(steps) < U64_LIMIT
    requires forall i :: 0 <= i < |steps| && steps[i].event.Append? ==> Utf8.Valid(steps[i].event.id)
    ensures var d := Run(EMPTY_DISK, max, steps);
            DistinctIds(Listing(d)) <==> !exists id, s1, r, t, s2 :: Splits(d, id, s1, r, t, s2)
  {
    hide Run, Utf8.Valid, TextIds, Splits, Listing;
    RunTexts(max, steps);
    ListedOnceIff(Run(EMPTY_DISK, max, steps));
  }

  lemma SplitIsApart(d: Disk, items: seq<Item>, id: Key, s1: u64, r: Key, t: u64, s2: u64)
    requires Splits(d, id, s1, r, t, s2) && KeyOrdered(items)
    requires forall id, s :: Shows(d, id, s) ==> exists i :: 0 <= i < |items| && items[i].id == id && items[i].s == s
    ensures !Together(items)
  {
    hide Be64, Lt, PendingKey, Shows;
    var other := id + [COLON] + r;
    var i :| 0 <= i < |items| && items[i].id == id && items[i].s == s1;
    var j :| 0 <= j < |items| && items[j].id == other && items[j].s == t;
    var k :| 0 <= k < |items| && items[k].id == id && items[k].s == s2;
    SplitsBetween(id, s1, r, t);
    SplitsBetween(id, s2, r, t);
    PositionsFollowKeys(items, i, j);
    PositionsFollowKeys(items, j, k);
    assert |other| != |id|;
    assert items[j].id != items[i].id;
  }

  lemma PositionsFollowKeys(items: seq<Item>, i: nat, j: nat)
    requires KeyOrdered(items) && i < |items| && j < |items|
    requires Lt(PendingKey(items[i].id, items[i].s), PendingKey(items[j].id, items[j].s))
    ensures i < j
  {
    hide Lt, PendingKey;
    LtTotal(PendingKey(items[i].id, items[i].s), PendingKey(items[j].id, items[j].s));
    LtIrreflexive(PendingKey(items[i].id, items[i].s));
  }

  lemma ApartIsSplit(d: Disk, items: seq<Item>) returns (id: Key, s1: u64, r: Key, t: u64, s2: u64)
    requires !Together(items) && KeyOrdered(items)
    requires forall i :: 0 <= i < |items| ==> Shows(d, items[i].id, items[i].s)
    ensures Splits(d, id, s1, r, t, s2)
  {
    hide Be64, Lt, PendingKey;
    var i, j, k :| 0 <= i < j < k < |items| && items[i].id == items[k].id && items[j].id != items[i].id;
    id, s1, t, s2 := items[i].id, items[i].s, items[j].s, items[k].s;
    assert Shows(d, items[j].id, t);
    BetweenContinues(id, s1, items[j].id, t, s2);
    r :| items[j].id == id + [COLON] + r;
    SplitsBetween(id, s1, r, t);
    SplitsBetween(id, s2, r, t);
  }
}
