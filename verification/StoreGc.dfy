/** What a garbage collection removes, and in what order. */
module StoreGc {
  import opened Bytes
  import opened Trees
  import opened StoreDisk
  import opened Wrappers

  /** The total of the data files, in saturating 64-bit arithmetic. */
  ghost function Total(k: Disk): u64 {
    SatAdd(SumLens(k.data), 0)
  }

  predicate HasRecord(k: Disk, d: Digest) {
    d in k.meta && k.meta[d].Readable?
  }

  ghost function Records(k: Disk): set<Digest> {
    set d | d in k.meta && k.meta[d].Readable?
  }

  /** Every readable record names the file it stands in. */
  ghost predicate Named(k: Disk) {
    forall d :: HasRecord(k, d) ==> k.meta[d].meta.sha == d
  }

  // ---- expiry ----

  predicate Expired(k: Disk, d: Digest, now: u64) {
    HasRecord(k, d) && k.meta[d].meta.expires.Some? && k.meta[d].meta.expires.value <= now
  }

  /** A listing of a directory: every file once. */
  ghost predicate Lists(l: seq<Digest>, files: set<Digest>) {
    && (forall d :: d in l <==> d in files)
    && (forall i, j :: 0 <= i < j < |l| ==> l[i] != l[j])
  }

  function ByName(files: set<Digest>): (l: seq<Digest>)
    ensures Lists(l, files)
  {
    var l := Ascending(files);
    assert forall i, j | 0 <= i < j < |l| :: l[i] != l[j] by {
      forall i, j | 0 <= i < j < |l|
        ensures l[i] != l[j]
      {
        LtIrreflexive(l[i]);
      }
    }
    l
  }

  /** The order in which the file system lists a set of files; any order will do. */
  type Order = f: set<Digest> -> seq<Digest> | forall s :: Lists(f(s), s) witness ByName

  /** What the expiry deletes on its way through a listing: a file that is gone by then is skipped. */
  function ExpiredObjects(k: Disk, files: seq<Digest>, now: u64): seq<Digest>
    decreases |files|
  {
    if files == [] then []
    else if Expired(k, files[0], now) then
      var sha := k.meta[files[0]].meta.sha;
      [sha] + ExpiredObjects(Del(k, sha), files[1..], now)
    else ExpiredObjects(k, files[1..], now)
  }

  /** The store without the objects whose record has expired. */
  ghost function Expire(k: Disk, now: u64): Disk {
    var gone := set d | d in k.meta && Expired(k, d, now);
    k.(meta := k.meta - gone, data := k.data - gone)
  }

  // ---- the size phase ----

  ghost predicate IsOldest(k: Disk, d: Digest) {
    && HasRecord(k, d)
    && forall e :: HasRecord(k, e) ==> k.meta[d].meta.created <= k.meta[e].meta.created
  }

  ghost predicate Settled(k: Disk, limit: u64) {
    Total(k) <= limit || Records(k) == {}
  }

  /** `removed` is a possible course of the loop: each time over the limit, each time an oldest. */
  ghost predicate Collects(k: Disk, limit: u64, removed: seq<Digest>)
    decreases |removed|
  {
    if removed == [] then Settled(k, limit)
    else
      && Total(k) > limit
      && IsOldest(k, removed[0])
      && Collects(Del(k, removed[0]), limit, removed[1..])
  }

  /** Data without a readable record: nothing ever collects it. */
  ghost function Orphans(k: Disk): Tree {
    k.data - Records(k)
  }

  /** The record that the search through a listing settles on: the first of the smallest creation time. */
  function OldestIn(k: Disk, files: seq<Digest>): (r: Option<Digest>)
    ensures r.Some? ==> HasRecord(k, r.value)
  {
    if files == [] then None
    else
      var best, d := OldestIn(k, files[..|files| - 1]), files[|files| - 1];
      if HasRecord(k, d) && (best.None? || k.meta[d].meta.created < k.meta[best.value].meta.created) then Some(d)
      else best
  }

  function Oldest(k: Disk, order: Order): Option<Digest> {
    OldestIn(k, order(k.meta.Keys))
  }

  /** The object that the next turn deletes: the one that the oldest record names. */
  function Victim(k: Disk, order: Order): (d: Digest)
    requires Oldest(k, order).Some?
  {
    k.meta[Oldest(k, order).value].meta.sha
  }

  /** The loop goes on. */
  ghost predicate Over(k: Disk, limit: u64, order: Order) {
    Total(k) > limit && Oldest(k, order).Some?
  }

  /** What the first n turns delete; a turn outside the guard deletes nothing. */
  ghost function Victims(k: Disk, limit: u64, order: Order, n: nat): seq<Digest>
    decreases n
  {
    if n == 0 || !Over(k, limit, order) then []
    else [Victim(k, order)] + Victims(Del(k, Victim(k, order)), limit, order, n - 1)
  }

  ghost function Turns(k: Disk, limit: u64, order: Order, n: nat): Disk {
    DelAll(k, Victims(k, limit, order, n))
  }

  /** What a collection deletes: the expiry's objects, then those of the size phase if there is a limit. */
  ghost function Collected(k: Disk, cfg: Config, order: Order, now: u64, n: nat): seq<Digest> {
    var gone := ExpiredObjects(k, order(k.meta.Keys), now);
    if cfg.maxTotal.None? then gone else gone + Victims(DelAll(k, gone), cfg.maxTotal.value, order, n)
  }

  ghost predicate Ends(k: Disk, limit: u64, order: Order) {
    exists n: nat :: !Over(Turns(k, limit, order, n), limit, order)
  }

  /** What is left of a store when its records have had their turns, oldest first, up to one that names
      nothing that is there. The limit plays no part. */
  function Floor(k: Disk, order: Order): Disk
    decreases |k.meta.Keys| + |k.data.Keys|
  {
    if Oldest(k, order).None? then k
    else
      var sha := Victim(k, order);
      if sha !in k.meta && sha !in k.data then k
      else
        DelShrinks(k, sha);
        Floor(Del(k, sha), order)
  }

  lemma DelShrinks(k: Disk, sha: Digest)
    requires sha in k.meta || sha in k.data
    ensures |Del(k, sha).meta.Keys| + |Del(k, sha).data.Keys| < |k.meta.Keys| + |k.data.Keys|
  {
    var l := Del(k, sha);
    assert l.meta.Keys == k.meta.Keys - {sha};
    assert l.data.Keys == k.data.Keys - {sha};
  }

  lemma {:induction false} OldestInSearched(k: Disk, files: seq<Digest>)
    ensures OldestIn(k, files).None? <==> forall d :: d in files ==> !HasRecord(k, d)
    ensures OldestIn(k, files).Some? ==>
              && OldestIn(k, files).value in files
              && forall d :: d in files && HasRecord(k, d) ==>
                   k.meta[OldestIn(k, files).value].meta.created <= k.meta[d].meta.created
    decreases |files|
  {
    if files != [] {
      var front := files[..|files| - 1];
      assert files == front + [files[|files| - 1]];
      OldestInSearched(k, front);
    }
  }

  lemma OldestFound(k: Disk, order: Order)
    ensures Oldest(k, order).None? <==> Records(k) == {}
    ensures Oldest(k, order).Some? ==> IsOldest(k, Oldest(k, order).value)
  {
    hide OldestIn;
    var files := order(k.meta.Keys);
    assert Lists(files, k.meta.Keys);
    OldestInSearched(k, files);
    if Oldest(k, order).None? {
      forall d | d in k.meta
        ensures !HasRecord(k, d)
      {
        assert d in files;
      }
    } else {
      assert Oldest(k, order).value in Records(k);
    }
  }

  /** The search settles on the record of smallest creation time that the listing has first. */
  lemma {:induction false} OldestIsFirst(k: Disk, files: seq<Digest>, i: nat)
    requires i < |files| && HasRecord(k, files[i])
    requires forall j :: 0 <= j < i && HasRecord(k, files[j]) ==>
               k.meta[files[j]].meta.created > k.meta[files[i]].meta.created
    requires forall j :: i < j < |files| && HasRecord(k, files[j]) ==>
               k.meta[files[j]].meta.created >= k.meta[files[i]].meta.created
    ensures OldestIn(k, files) == Some(files[i])
    decreases |files|
  {
    var front, last := files[..|files| - 1], files[|files| - 1];
    if i < |front| {
      OldestIsFirst(k, front, i);
    } else {
      OldestInSearched(k, front);
      if OldestIn(k, front).Some? {
        var j :| 0 <= j < |front| && front[j] == OldestIn(k, front).value;
        assert files[j] == front[j];
      }
    }
  }

  lemma {:induction false} FloorTotal(k: Disk, order: Order)
    ensures Total(Floor(k, order)) <= Total(k)
    decreases |k.meta.Keys| + |k.data.Keys|
  {
    if Oldest(k, order).Some? {
      hide Oldest, Total;
      var sha := Victim(k, order);
      if sha in k.meta || sha in k.data {
        DelShrinks(k, sha);
        FloorTotal(Del(k, sha), order);
        DelTotal(k, sha);
      }
    }
  }

  lemma DelTotal(k: Disk, sha: Digest)
    ensures Total(Del(k, sha)) <= Total(k)
  {
    hide SumLens;
    SumLensMinus(k.data, {sha});
  }

  lemma DelNothing(k: Disk, sha: Digest)
    requires sha !in k.meta && sha !in k.data
    ensures Del(k, sha) == k
  {
    assert k.meta - {sha} == k.meta;
    assert k.data - {sha} == k.data;
  }

  /** A turn that deletes nothing is followed by the same turn for ever. */
  lemma {:induction false} StuckForever(k: Disk, limit: u64, order: Order, n: nat)
    requires Over(k, limit, order) && Victim(k, order) !in k.meta && Victim(k, order) !in k.data
    ensures Turns(k, limit, order, n) == k
    decreases n
  {
    hide Total, Oldest;
    if n > 0 {
      var sha := Victim(k, order);
      StuckForever(k, limit, order, n - 1);
      DelNothing(k, sha);
      var rest := Victims(k, limit, order, n - 1);
      assert ([sha] + rest)[0] == sha && ([sha] + rest)[1..] == rest;
    }
  }

  lemma TurnsStep(k: Disk, limit: u64, order: Order, n: nat)
    requires n > 0 && Over(k, limit, order)
    ensures Turns(k, limit, order, n) == Turns(Del(k, Victim(k, order)), limit, order, n - 1)
  {
    hide Total, Oldest;
    var sha := Victim(k, order);
    var rest := Victims(Del(k, sha), limit, order, n - 1);
    assert ([sha] + rest)[0] == sha && ([sha] + rest)[1..] == rest;
  }

  lemma {:induction false} TurnsSnoc(k: Disk, limit: u64, order: Order, n: nat)
    ensures Victims(k, limit, order, n + 1) ==
            Victims(k, limit, order, n)
            + if Over(Turns(k, limit, order, n), limit, order) then [Victim(Turns(k, limit, order, n), order)] else []
    decreases n
  {
    hide Total, Oldest;
    if Over(k, limit, order) {
      if n > 0 {
        TurnsStep(k, limit, order, n);
        TurnsSnoc(Del(k, Victim(k, order)), limit, order, n - 1);
      } else {
        assert Victims(Del(k, Victim(k, order)), limit, order, 0) == [];
        assert Turns(k, limit, order, 0) == k;
      }
    } else {
      assert Victims(k, limit, order, n) == [] && Turns(k, limit, order, n) == k;
    }
  }

  lemma {:induction false} NoMoreTurns(k: Disk, limit: u64, order: Order, n: nat, more: nat)
    requires !Over(Turns(k, limit, order, n), limit, order)
    ensures Victims(k, limit, order, n + more) == Victims(k, limit, order, n)
    decreases more
  {
    hide Total, Oldest;
    if more > 0 {
      NoMoreTurns(k, limit, order, n, more - 1);
      TurnsSnoc(k, limit, order, n + more - 1);
    }
  }

  lemma EndsStep(k: Disk, limit: u64, order: Order)
    ensures !Over(k, limit, order) ==> Ends(k, limit, order)
    ensures Over(k, limit, order) ==> (Ends(k, limit, order) <==> Ends(Del(k, Victim(k, order)), limit, order))
  {
    hide Total, Oldest;
    assert Turns(k, limit, order, 0) == k;
    if Over(k, limit, order) {
      var l := Del(k, Victim(k, order));
      if n: nat :| !Over(Turns(k, limit, order, n), limit, order) {
        assert n > 0;
        TurnsStep(k, limit, order, n);
      }
      if n: nat :| !Over(Turns(l, limit, order, n), limit, order) {
        TurnsStep(k, limit, order, n + 1);
      }
    }
  }

  /** The size phase ends if and only if what no turn can ever remove fits the limit, or no record is
      among it. */
  lemma {:induction false} EndsIff(k: Disk, limit: u64, order: Order)
    ensures Ends(k, limit, order) <==>
            Records(Floor(k, order)) == {} || Total(Floor(k, order)) <= limit
    decreases |k.meta.Keys| + |k.data.Keys|
  {
    hide Total, Turns, Ends, Oldest, Records;
    EndsStep(k, limit, order);
    FloorTotal(k, order);
    OldestFound(k, order);
    OldestFound(Floor(k, order), order);
    if Over(k, limit, order) {
      var sha := Victim(k, order);
      if sha in k.meta || sha in k.data {
        DelShrinks(k, sha);
        EndsIff(Del(k, sha), limit, order);
      } else {
        NeverEnds(k, limit, order);
      }
    }
  }

  lemma NeverEnds(k: Disk, limit: u64, order: Order)
    requires Over(k, limit, order) && Victim(k, order) !in k.meta && Victim(k, order) !in k.data
    ensures !Ends(k, limit, order)
  {
    hide Total, Oldest;
    forall n: nat
      ensures Over(Turns(k, limit, order, n), limit, order)
    {
      StuckForever(k, limit, order, n);
    }
  }

  /** Over the limit with a single record, and that one naming an object that is not there: the size
      phase runs for ever. */
  lemma LoneMisnamedHangs(k: Disk, limit: u64, order: Order, d: Digest)
    requires Total(k) > limit && Records(k) == {d}
    requires k.meta[d].meta.sha !in k.meta && k.meta[d].meta.sha !in k.data
    ensures !Ends(k, limit, order)
  {
    hide Total, Oldest, Ends;
    OldestFound(k, order);
    assert Oldest(k, order).value in Records(k);
    NeverEnds(k, limit, order);
  }

  /** Named records always leave: the size phase of such a store ends whatever the limit. */
  lemma {:induction false} NamedFloor(k: Disk, order: Order)
    requires Named(k)
    ensures Records(Floor(k, order)) == {}
    decreases |k.meta.Keys| + |k.data.Keys|
  {
    hide Oldest;
    OldestFound(k, order);
    if Oldest(k, order).Some? {
      var sha := Victim(k, order);
      assert sha == Oldest(k, order).value;
      DelShrinks(k, sha);
      NamedFloor(Del(k, sha), order);
    }
  }

  /** With named records a finished size phase is a collection, so all that is proved of those holds. */
  lemma {:induction false} VictimsCollect(k: Disk, limit: u64, order: Order, n: nat)
    requires Named(k) && !Over(Turns(k, limit, order, n), limit, order)
    ensures Collects(k, limit, Victims(k, limit, order, n))
    decreases n
  {
    hide Oldest, Total;
    OldestFound(k, order);
    if n > 0 && Over(k, limit, order) {
      var sha := Victim(k, order);
      TurnsStep(k, limit, order, n);
      VictimsCollect(Del(k, sha), limit, order, n - 1);
      var rest := Victims(Del(k, sha), limit, order, n - 1);
      assert ([sha] + rest)[0] == sha && ([sha] + rest)[1..] == rest;
    } else {
      assert Victims(k, limit, order, n) == [];
      assert Turns(k, limit, order, n) == k;
    }
  }

  // ---- expiry, whatever the order of the listing ----

  lemma RemovedTogether(k: Disk, d: Digest, less: set<Digest>)
    ensures k.meta - {d} - less == k.meta - ({d} + less)
    ensures k.data - {d} - less == k.data - ({d} + less)
  {
  }

  lemma {:induction false} DelFirst(k: Disk, d: Digest, tail: seq<Digest>)
    ensures DelAll(k, [d] + tail) == DelAll(Del(k, d), tail)
  {
    assert ([d] + tail)[0] == d && ([d] + tail)[1..] == tail;
  }

  ghost function ExpiredAmong(k: Disk, files: seq<Digest>, now: u64): set<Digest> {
    set d | d in files && Expired(k, d, now)
  }

  lemma ExpiredFirst(k: Disk, d: Digest, rest: seq<Digest>, now: u64)
    requires d !in rest
    ensures ExpiredAmong(k, [d] + rest, now) ==
            if Expired(k, d, now) then {d} + ExpiredAmong(Del(k, d), rest, now) else ExpiredAmong(k, rest, now)
  {
    assert forall x :: x in rest ==> (Expired(Del(k, d), x, now) <==> Expired(k, x, now));
  }

  lemma {:induction false} ExpiryRemoves(k: Disk, files: seq<Digest>, now: u64)
    requires Named(k) && forall i, j :: 0 <= i < j < |files| ==> files[i] != files[j]
    ensures DelAll(k, ExpiredObjects(k, files, now)).meta == k.meta - ExpiredAmong(k, files, now)
    ensures DelAll(k, ExpiredObjects(k, files, now)).data == k.data - ExpiredAmong(k, files, now)
    decreases |files|
  {
    hide ExpiredAmong, DelAll;
    if files == [] {
      NoneExpired(k, now);
    } else {
      var d, rest := files[0], files[1..];
      assert files == [d] + rest;
      ExpiredFirst(k, d, rest, now);
      if Expired(k, d, now) {
        var l := Del(k, d);
        ExpiryRemoves(l, rest, now);
        DelFirst(k, d, ExpiredObjects(l, rest, now));
        RemovedTogether(k, d, ExpiredAmong(l, rest, now));
      } else {
        ExpiryRemoves(k, rest, now);
      }
    }
  }

  lemma {:induction false} NoneExpired(k: Disk, now: u64)
    ensures ExpiredAmong(k, [], now) == {} && DelAll(k, []) == k
    ensures k.meta - {} == k.meta && k.data - {} == k.data
  {
  }

  /** With named records the expiry removes exactly the expired objects, in whatever order it meets them. */
  lemma {:induction false} ExpiryExact(k: Disk, order: Order, now: u64)
    requires Named(k)
    ensures DelAll(k, ExpiredObjects(k, order(k.meta.Keys), now)) == Expire(k, now)
    ensures Named(Expire(k, now))
  {
    var files := order(k.meta.Keys);
    assert Lists(files, k.meta.Keys);
    ExpiryRemoves(k, files, now);
    assert ExpiredAmong(k, files, now) == (set d | d in k.meta && Expired(k, d, now));
    DelAllKeepsTemporary(k, ExpiredObjects(k, files, now));
  }

  lemma {:induction false} DelAllKeepsTemporary(k: Disk, removed: seq<Digest>)
    ensures DelAll(k, removed).dataTmp == k.dataTmp && DelAll(k, removed).metaTmp == k.metaTmp
    decreases |removed|
  {
    if removed != [] {
      DelAllKeepsTemporary(Del(k, removed[0]), removed[1..]);
    }
  }

  // ---- what any course of the loop has in common ----

  lemma {:induction false} CollectionSettles(k: Disk, limit: u64, removed: seq<Digest>)
    requires Collects(k, limit, removed)
    ensures Settled(DelAll(k, removed), limit)
    ensures Total(k) <= limit ==> removed == []
    decreases |removed|
  {
    if removed != [] {
      CollectionSettles(Del(k, removed[0]), limit, removed[1..]);
    }
  }

  /** Only recorded objects are removed, each once, with metadata and data; all else is untouched. */
  lemma {:induction false} CollectionRemovesRecords(k: Disk, limit: u64, removed: seq<Digest>)
    requires Collects(k, limit, removed)
    ensures forall i :: 0 <= i < |removed| ==> HasRecord(k, removed[i])
    ensures forall i, j :: 0 <= i < j < |removed| ==> removed[i] != removed[j]
    ensures DelAll(k, removed).meta == k.meta - (set d | d in removed)
    ensures DelAll(k, removed).data == k.data - (set d | d in removed)
    decreases |removed|
  {
    if removed != [] {
      hide Total, IsOldest;
      var d, rest := removed[0], removed[1..];
      OldestHasRecord(k, d);
      CollectionRemovesRecords(Del(k, d), limit, rest);
      assert (set x | x in removed) == {d} + (set x | x in rest);
      RemovedTogether(k, d, set x | x in rest);
    }
  }

  lemma OldestHasRecord(k: Disk, d: Digest)
    requires IsOldest(k, d)
    ensures HasRecord(k, d)
  {
  }

  /** Oldest first: no removed object is younger than one removed later or than any survivor. */
  lemma {:induction false} OldestFirst(k: Disk, limit: u64, removed: seq<Digest>, i: nat, e: Digest)
    requires Collects(k, limit, removed) && i < |removed|
    requires HasRecord(k, e) && forall j :: 0 <= j < i ==> removed[j] != e
    ensures HasRecord(k, removed[i])
    ensures k.meta[removed[i]].meta.created <= k.meta[e].meta.created
    decreases |removed|
  {
    hide Total;
    if i > 0 {
      var l := Del(k, removed[0]);
      assert HasRecord(l, e);
      assert forall j :: 0 <= j < i - 1 ==> removed[1..][j] == removed[j + 1];
      OldestFirst(l, limit, removed[1..], i - 1, e);
    }
  }

  /** No more is removed than needed: before each removal the store was over its limit. */
  lemma {:induction false} NothingInVain(k: Disk, limit: u64, removed: seq<Digest>, i: nat)
    requires Collects(k, limit, removed) && i < |removed|
    ensures Total(DelAll(k, removed[..i])) > limit
    decreases |removed|
  {
    if i > 0 {
      hide Total, IsOldest;
      NothingInVain(Del(k, removed[0]), limit, removed[1..], i - 1);
      assert removed[..i][1..] == removed[1..][..i - 1];
    }
  }

  lemma {:induction false} OrphansStay(k: Disk, limit: u64, removed: seq<Digest>)
    requires Collects(k, limit, removed)
    ensures Orphans(DelAll(k, removed)) == Orphans(k)
    decreases |removed|
  {
    if removed != [] {
      hide Total;
      var l := Del(k, removed[0]);
      OrphansStay(l, limit, removed[1..]);
      assert Records(l) == Records(k) - {removed[0]};
      assert Orphans(l) == Orphans(k);
    }
  }

  /** The collection ends within the limit if and only if the data that no record accounts for fits it. */
  lemma {:induction false} WithinLimitIff(k: Disk, limit: u64, removed: seq<Digest>)
    requires Collects(k, limit, removed)
    ensures Total(DelAll(k, removed)) <= limit <==> SatAdd(SumLens(Orphans(k)), 0) <= limit
  {
    hide SumLens;
    var e := DelAll(k, removed);
    CollectionSettles(k, limit, removed);
    OrphansStay(k, limit, removed);
    SumLensMinus(e.data, Records(e));
    if Records(e) == {} {
      assert Orphans(e) == e.data;
    }
  }

  // ---- adding within the limit ----

  /** Storing new content adds its length to the total, and storing what is there does not change it. */
  lemma PutTotal(k: Disk, d: Digest, c: Payload)
    ensures var stored := if d in k.data then k.data else k.data[d := c];
            SatAdd(SumLens(stored), 0) == if d in k.data then Total(k) else SatAdd(Total(k), |c|)
  {
    hide SumLens;
    if d !in k.data {
      SumLensInsert(k.data, d, c);
    }
  }
}
