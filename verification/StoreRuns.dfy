/** Runs of the store: whole adds, collections and deletions, each stopped after any of its steps. */
module StoreRuns {
  import opened Bytes
  import opened Trees
  import opened StoreDisk
  import opened StoreSafety
  import opened StoreGc
  import opened Wrappers
  import opened Writes

  datatype Error = ItemTooBig | StorageFull | Corruption
  datatype Result<T> = Ok(value: T) | Err(error: Error)

  // ---- adding ----

  predicate TooBig(cfg: Config, c: Payload) {
    cfg.maxItem.Some? && |c| > cfg.maxItem.value
  }

  /** The total leaves no room for the content, whether or not it is already stored. */
  ghost predicate NoRoom(k: Disk, cfg: Config, c: Payload) {
    cfg.maxTotal.Some? && SatAdd(Total(k), |c|) > cfg.maxTotal.value
  }

  /** What the collection deletes that an add asks for when there is no room. */
  ghost function Cleared(k: Disk, cfg: Config, order: Order, c: Payload, gcNow: u64, turns: nat): seq<Digest> {
    if NoRoom(k, cfg, c) then Collected(k, cfg, order, gcNow, turns) else []
  }

  /** The steps of an add, watched for `turns` turns of its collection. */
  ghost function AddWrites(k: Disk, cfg: Config, hash: Payload -> Digest, order: Order, c: Payload,
                           gcNow: u64, now: u64, turns: nat): seq<Write>
  {
    if TooBig(cfg, c) then []
    else
      var gone := Cleared(k, cfg, order, c, gcNow, turns);
      var base := DelAll(k, gone);
      DelAllWrites(gone) + if NoRoom(base, cfg, c) then [] else PutWrites(base, cfg, hash, c, now)
  }

  /** Its answer; `None` while the collection goes on. */
  ghost function AddResult(k: Disk, cfg: Config, hash: Payload -> Digest, order: Order, c: Payload,
                           gcNow: u64, now: u64, turns: nat): Option<Result<Meta>>
  {
    if TooBig(cfg, c) then Some(Err(ItemTooBig))
    else
      var base := DelAll(k, Cleared(k, cfg, order, c, gcNow, turns));
      if NoRoom(k, cfg, c) && Over(base, cfg.maxTotal.value, order) then None
      else if NoRoom(base, cfg, c) then Some(Err(StorageFull))
      else if Corrupt(base, hash, hash(c)) then Some(Err(Corruption))
      else Some(Ok(NewMeta(cfg, hash(c), |c|, now)))
  }

  lemma {:induction false} OverIsFull(k: Disk, cfg: Config, order: Order, c: Payload)
    requires cfg.maxTotal.Some? && Over(k, cfg.maxTotal.value, order)
    ensures NoRoom(k, cfg, c)
  {
    hide SumLens, Oldest;
  }

  /** What an add comes to, in its two stages. */
  lemma {:induction false} AddEffect(k: Disk, cfg: Config, hash: Payload -> Digest, order: Order, c: Payload,
                                     gcNow: u64, now: u64, turns: nat)
    ensures var base := DelAll(k, Cleared(k, cfg, order, c, gcNow, turns));
            var l := ApplyAll(k, AddWrites(k, cfg, hash, order, c, gcNow, now, turns), Apply);
            l == if TooBig(cfg, c) then k
                 else if NoRoom(base, cfg, c) then base
                 else ApplyAll(base, PutWrites(base, cfg, hash, c, now), Apply)
  {
    hide ApplyAll, PutWrites, DelAll, DelAllWrites, Total, Oldest, Collected, NoRoom;
    ApplyNone(k, Apply);
    var gone := Cleared(k, cfg, order, c, gcNow, turns);
    var base := DelAll(k, gone);
    DelAllIsWrites(k, gone);
    ApplyNone(base, Apply);
    var put := if NoRoom(base, cfg, c) then [] else PutWrites(base, cfg, hash, c, now);
    ApplyAllConcat(k, DelAllWrites(gone), put, Apply);
  }

  lemma {:induction false} PutStored(k: Disk, cfg: Config, hash: Payload -> Digest, c: Payload, now: u64)
    requires !Corrupt(k, hash, hash(c))
    ensures var d := hash(c);
            var l := ApplyAll(k, PutWrites(k, cfg, hash, c, now), Apply);
            && HasRecord(l, d) && l.meta[d].meta == NewMeta(cfg, d, |c|, now)
            && l.data == (if d in k.data then k.data else k.data[d := c])
  {
    hide ApplyAll, PutWrites;
    var ws := PutWrites(k, cfg, hash, c, now);
    PutEffect(k, cfg, hash, c, now, |ws|);
    assert Prefix(ws, |ws|) == ws;
  }

  // ---- runs ----

  /** `Collect` is a collection that a client asks for; expiry alone is a collection without a limit. */
  datatype Event =
    | Add(content: Payload, gcNow: u64, now: u64, turns: nat)
    | Collect(gcNow: u64, turns: nat)
    | Delete(d: Digest)

  /** The configuration can be another one at each step: a store may be opened again. */
  datatype Step = Step(cfg: Config, event: Event, cut: nat)

  ghost function EventWrites(k: Disk, cfg: Config, hash: Payload -> Digest, order: Order, e: Event): seq<Write> {
    match e
    case Add(c, gcNow, now, turns) => AddWrites(k, cfg, hash, order, c, gcNow, now, turns)
    case Collect(gcNow, turns) => DelAllWrites(Collected(k, cfg, order, gcNow, turns))
    case Delete(d) => DelWrites(d)
  }

  ghost function After(k: Disk, hash: Payload -> Digest, order: Order, s: Step): Disk {
    ApplyAll(k, Prefix(EventWrites(k, s.cfg, hash, order, s.event), s.cut), Apply)
  }

  ghost function Run(hash: Payload -> Digest, order: Order, steps: seq<Step>): Disk {
    if steps == [] then EMPTY_DISK
    else After(Run(hash, order, steps[..|steps| - 1]), hash, order, steps[|steps| - 1])
  }

  // ---- readiness ----

  lemma {:induction false} AddReady(k: Disk, cfg: Config, hash: Payload -> Digest, order: Order, c: Payload,
                                    gcNow: u64, now: u64, turns: nat, cut: nat)
    requires Injective(hash) && Ready(k, hash)
    ensures Ready(ApplyAll(k, Prefix(AddWrites(k, cfg, hash, order, c, gcNow, now, turns), cut), Apply), hash)
  {
    hide ApplyAll, PutWrites, DelAll, DelAllWrites, Ready, Injective, Cleared, NoRoom;
    ApplyNone(k, Apply);
    if !TooBig(cfg, c) {
      var gone := Cleared(k, cfg, order, c, gcNow, turns);
      var base := DelAll(k, gone);
      var ws, puts := DelAllWrites(gone), if NoRoom(base, cfg, c) then [] else PutWrites(base, cfg, hash, c, now);
      PrefixOfConcat(ws, puts, cut);
      DelAllReady(k, hash, gone, cut);
      if cut > |ws| {
        DelAllIsWrites(k, gone);
        PutReady(base, cfg, hash, c, now, cut - |ws|);
        ApplyNone(base, Apply);
        ApplyAllConcat(k, ws, Prefix(puts, cut - |ws|), Apply);
      }
    }
  }

  lemma {:induction false} StepReady(k: Disk, hash: Payload -> Digest, order: Order, s: Step)
    requires Injective(hash) && Ready(k, hash)
    ensures Ready(After(k, hash, order, s), hash)
  {
    hide ApplyAll, AddWrites, DelAllWrites, Collected, Ready, Injective;
    match s.event {
      case Add(c, gcNow, now, turns) => AddReady(k, s.cfg, hash, order, c, gcNow, now, turns, s.cut);
      case Collect(gcNow, turns) => DelAllReady(k, hash, Collected(k, s.cfg, order, gcNow, turns), s.cut);
      case Delete(d) => DeleteReady(k, hash, d, s.cut);
    }
  }

  /** After any run of adds, with the collections they ask for, of collections and of deletions, stopped after
      any step: metadata present for a digest means the whole content with that digest is present. */
  lemma {:induction false} AlwaysReady(hash: Payload -> Digest, order: Order, steps: seq<Step>)
    requires Injective(hash)
    ensures Ready(Run(hash, order, steps), hash)
    decreases |steps|
  {
    if steps != [] {
      hide Ready, Injective, After;
      var front, last := steps[..|steps| - 1], steps[|steps| - 1];
      AlwaysReady(hash, order, front);
      StepReady(Run(hash, order, front), hash, order, last);
    }
  }

  // ---- the size limit ----

  lemma {:induction false} DeletionTotal(k: Disk, removed: seq<Digest>, cut: nat)
    ensures Total(ApplyAll(k, Prefix(DelAllWrites(removed), cut), Apply)) <= Total(k)
    decreases |removed|
  {
    hide ApplyAll, Total, DelWrites;
    if removed == [] {
      ApplyNone(k, Apply);
    } else {
      var d, rest := removed[0], removed[1..];
      var n := |DelWrites(d)|;
      PrefixOfConcat(DelWrites(d), DelAllWrites(rest), cut);
      OneDeletionTotal(k, d, cut);
      DelEffect(k, d);
      if cut > n {
        DelTotal(k, d);
        DeletionTotal(Del(k, d), rest, cut - n);
        ApplyAllConcat(k, DelWrites(d), Prefix(DelAllWrites(rest), cut - n), Apply);
      }
    }
  }

  lemma {:induction false} OneDeletionTotal(k: Disk, d: Digest, cut: nat)
    ensures Total(ApplyAll(k, Prefix(DelWrites(d), cut), Apply)) <= Total(k)
  {
    hide ApplyAll, SumLens;
    PrefixTwo(k, DelMeta(d), DelData(d), cut, Apply);
    SumLensMinus(k.data, {d});
  }

  lemma {:induction false} AddTotal(k: Disk, cfg: Config, hash: Payload -> Digest, order: Order, c: Payload,
                                    gcNow: u64, now: u64, turns: nat, cut: nat, limit: u64)
    requires cfg.maxTotal.Some? && cfg.maxTotal.value <= limit && Total(k) <= limit
    ensures Total(ApplyAll(k, Prefix(AddWrites(k, cfg, hash, order, c, gcNow, now, turns), cut), Apply)) <= limit
  {
    hide ApplyAll, PutWrites, DelAll, DelAllWrites, Cleared, Total;
    ApplyNone(k, Apply);
    if !TooBig(cfg, c) {
      var gone := Cleared(k, cfg, order, c, gcNow, turns);
      var base := DelAll(k, gone);
      var ws, puts := DelAllWrites(gone), if NoRoom(base, cfg, c) then [] else PutWrites(base, cfg, hash, c, now);
      PrefixOfConcat(ws, puts, cut);
      DeletionTotal(k, gone, cut);
      DelAllTotal(k, gone);
      if cut > |ws| {
        DelAllIsWrites(k, gone);
        ApplyNone(base, Apply);
        ApplyAllConcat(k, ws, Prefix(puts, cut - |ws|), Apply);
        PutEffect(base, cfg, hash, c, now, cut - |ws|);
        TotalWithin(base, hash(c), c, ApplyAll(base, Prefix(PutWrites(base, cfg, hash, c, now), cut - |ws|), Apply));
      }
    }
  }

  lemma {:induction false} TotalWithin(k: Disk, d: Digest, c: Payload, l: Disk)
    requires l.data == k.data || l.data == if d in k.data then k.data else k.data[d := c]
    ensures Total(l) <= SatAdd(Total(k), |c|)
  {
    hide SumLens;
    PutTotal(k, d, c);
  }

  /** Nothing is ever added under a limit above `limit`, nor without one. */
  ghost predicate Limited(steps: seq<Step>, limit: u64) {
    forall i :: 0 <= i < |steps| && steps[i].event.Add? ==>
      steps[i].cfg.maxTotal.Some? && steps[i].cfg.maxTotal.value <= limit
  }

  /** Then the total never exceeds it, in any run and at any stop, whatever else is configured. */
  lemma {:induction false} AlwaysWithinLimit(hash: Payload -> Digest, order: Order, steps: seq<Step>, limit: u64)
    requires Limited(steps, limit)
    ensures Total(Run(hash, order, steps)) <= limit
    ensures limit < 0xFFFF_FFFF_FFFF_FFFF ==> SumLens(Run(hash, order, steps).data) <= limit
    decreases |steps|
  {
    if steps == [] {
      SumLensEmpty();
    } else {
      var front, last := steps[..|steps| - 1], steps[|steps| - 1];
      AlwaysWithinLimit(hash, order, front, limit);
      var k := Run(hash, order, front);
      hide ApplyAll, AddWrites, DelAllWrites, DelWrites, Collected, Total;
      match last.event {
        case Add(c, gcNow, now, turns) => AddTotal(k, last.cfg, hash, order, c, gcNow, now, turns, last.cut, limit);
        case Collect(gcNow, turns) => DeletionTotal(k, Collected(k, last.cfg, order, gcNow, turns), last.cut);
        case Delete(d) => OneDeletionTotal(k, d, last.cut);
      }
    }
  }

  /** So as long as the limit has not been lowered since, or there is none now, the oldest-first removal does not
      come into play: a collection is an expiry. */
  lemma {:induction false} CollectionsOnlyExpire(cfg: Config, hash: Payload -> Digest, order: Order, steps: seq<Step>,
                                                 now: u64, turns: nat)
    requires cfg.maxTotal.Some? ==> Limited(steps, cfg.maxTotal.value)
    ensures var k := Run(hash, order, steps);
            && Collected(k, cfg, order, now, turns) == ExpiredObjects(k, order(k.meta.Keys), now)
            && DelAll(k, Collected(k, cfg, order, now, turns)) == Expire(k, now)
  {
    hide Total, Run, Collected, ExpiredObjects, Named, DelAll, Expire, Limited;
    if cfg.maxTotal.Some? {
      AlwaysWithinLimit(hash, order, steps, cfg.maxTotal.value);
    }
    AlwaysNamed(hash, order, steps);
    var k := Run(hash, order, steps);
    CollectionOnlyExpires(k, cfg, order, now, turns);
    ExpiryExact(k, order, now);
  }

  // ---- names ----

  lemma {:induction false} PutNamed(k: Disk, cfg: Config, hash: Payload -> Digest, c: Payload, now: u64, cut: nat)
    requires Named(k)
    ensures Named(ApplyAll(k, Prefix(PutWrites(k, cfg, hash, c, now), cut), Apply))
  {
    hide ApplyAll, PutWrites;
    PutEffect(k, cfg, hash, c, now, cut);
  }

  lemma {:induction false} DelNamed(k: Disk, d: Digest, cut: nat)
    requires Named(k)
    ensures Named(ApplyAll(k, Prefix(DelWrites(d), cut), Apply)) && Named(Del(k, d))
  {
    hide ApplyAll;
    PrefixTwo(k, DelMeta(d), DelData(d), cut, Apply);
  }

  lemma {:induction false} DelAllNamed(k: Disk, removed: seq<Digest>, cut: nat)
    requires Named(k)
    ensures Named(ApplyAll(k, Prefix(DelAllWrites(removed), cut), Apply)) && Named(DelAll(k, removed))
    decreases |removed|
  {
    hide ApplyAll, Named, DelWrites;
    if removed == [] {
      ApplyNone(k, Apply);
    } else {
      var d, rest := removed[0], removed[1..];
      var n := |DelWrites(d)|;
      PrefixOfConcat(DelWrites(d), DelAllWrites(rest), cut);
      DelNamed(k, d, cut);
      DelEffect(k, d);
      DelAllNamed(Del(k, d), rest, if cut > n then cut - n else 0);
      if cut > n {
        ApplyAllConcat(k, DelWrites(d), Prefix(DelAllWrites(rest), cut - n), Apply);
      }
    }
  }

  lemma {:induction false} AddNamed(k: Disk, cfg: Config, hash: Payload -> Digest, order: Order, c: Payload,
                                    gcNow: u64, now: u64, turns: nat, cut: nat)
    requires Named(k)
    ensures Named(ApplyAll(k, Prefix(AddWrites(k, cfg, hash, order, c, gcNow, now, turns), cut), Apply))
  {
    hide ApplyAll, PutWrites, DelAll, DelAllWrites, Named, Cleared, NoRoom;
    ApplyNone(k, Apply);
    if !TooBig(cfg, c) {
      var gone := Cleared(k, cfg, order, c, gcNow, turns);
      var base := DelAll(k, gone);
      var ws, puts := DelAllWrites(gone), if NoRoom(base, cfg, c) then [] else PutWrites(base, cfg, hash, c, now);
      PrefixOfConcat(ws, puts, cut);
      DelAllNamed(k, gone, cut);
      if cut > |ws| {
        DelAllIsWrites(k, gone);
        PutNamed(base, cfg, hash, c, now, cut - |ws|);
        ApplyNone(base, Apply);
        ApplyAllConcat(k, ws, Prefix(puts, cut - |ws|), Apply);
      }
    }
  }

  /** In every state that a run of the store reaches, each record names the file it stands in, so the
      collection always has something to remove. */
  lemma {:induction false} AlwaysNamed(hash: Payload -> Digest, order: Order, steps: seq<Step>)
    ensures Named(Run(hash, order, steps))
    decreases |steps|
  {
    if steps != [] {
      var front, last := steps[..|steps| - 1], steps[|steps| - 1];
      AlwaysNamed(hash, order, front);
      var k := Run(hash, order, front);
      hide ApplyAll, AddWrites, DelAllWrites, DelWrites, Collected, Named;
      match last.event {
        case Add(c, gcNow, now, turns) => AddNamed(k, last.cfg, hash, order, c, gcNow, now, turns, last.cut);
        case Collect(gcNow, turns) => DelAllNamed(k, Collected(k, last.cfg, order, gcNow, turns), last.cut);
        case Delete(d) => DelNamed(k, d, last.cut);
      }
    }
  }

  /** With named records a collection that returns is an exact expiry, followed by a course of the size
      phase as the collection lemmas describe it. */
  lemma NamedCollection(k: Disk, cfg: Config, order: Order, now: u64, turns: nat) returns (removed: seq<Digest>)
    requires Named(k) && cfg.maxTotal.Some?
    requires !Over(DelAll(k, Collected(k, cfg, order, now, turns)), cfg.maxTotal.value, order)
    ensures Collects(Expire(k, now), cfg.maxTotal.value, removed)
    ensures DelAll(k, Collected(k, cfg, order, now, turns)) == DelAll(Expire(k, now), removed)
  {
    hide Total, DelAll, DelAllWrites, Oldest, Victims, ExpiredObjects, Expire, Named, Collects;
    var gone := ExpiredObjects(k, order(k.meta.Keys), now);
    removed := Victims(DelAll(k, gone), cfg.maxTotal.value, order, turns);
    ExpiryExact(k, order, now);
    DelAllConcat(k, gone, removed);
    VictimsCollect(Expire(k, now), cfg.maxTotal.value, order, turns);
  }

  // ---- runs on which the size limit does not do what one might expect ----

  lemma {:induction false} FirstStep(hash: Payload -> Digest, order: Order, s: Step)
    ensures Run(hash, order, [s]) == After(EMPTY_DISK, hash, order, s)
  {
    hide After;
    assert [s][..0] == [];
    assert Run(hash, order, []) == EMPTY_DISK;
  }

  lemma {:induction false} FirstAdd(
      cfg: Config, hash: Payload -> Digest, order: Order, c: Payload, gcNow: u64, now: u64, turns: nat)
    requires !TooBig(cfg, c) && (cfg.maxTotal.Some? ==> |c| <= cfg.maxTotal.value)
    ensures AddWrites(EMPTY_DISK, cfg, hash, order, c, gcNow, now, turns) ==
            CopyWrites(hash(c), c) + JsonWrites(NewMeta(cfg, hash(c), |c|, now))
  {
    hide CopyWrites, JsonWrites, Collected;
    SumLensEmpty();
    DelNone(EMPTY_DISK);
  }

  /** An add that is stopped once its data is in place leaves data without a record. A store that is opened
      again with a smaller limit stays above it: its collection returns at once, and so does any other. */
  lemma {:induction false} StoppedAddOutlivesCollection(
      cfg: Config, tight: Config, hash: Payload -> Digest, order: Order, c: Payload, now: u64, later: u64, turns: nat,
      cut: nat)
    requires cfg.maxItem.None? && cfg.maxTotal.None? && tight.maxTotal.Some? && tight.maxTotal.value < |c|
    ensures var first := Step(cfg, Add(c, now, now, 0), |CopyWrites(hash(c), c)|);
            var k := Run(hash, order, [first, Step(tight, Collect(later, turns), cut)]);
            && !Over(k, tight.maxTotal.value, order) && Total(k) > tight.maxTotal.value
            && k == Run(hash, order, [first])
  {
    hide ApplyAll, CopyWrites, JsonWrites, SumLens, Oldest, AddWrites, Collected;
    var d, copy := hash(c), CopyWrites(hash(c), c);
    var s, t := Step(cfg, Add(c, now, now, 0), |copy|), Step(tight, Collect(later, turns), cut);
    FirstStep(hash, order, s);
    FirstAdd(cfg, hash, order, c, now, now, 0);
    var k := Run(hash, order, [s]);
    PrefixOfConcat(copy, JsonWrites(NewMeta(cfg, d, |c|, now)), |copy|);
    CopyEffect(EMPTY_DISK, d, c, |copy|);
    assert k.data == map[][d := c] && k.meta == map[];
    SumLensInsert(map[], d, c);
    SumLensEmpty();
    OldestFound(k, order);
    NothingRecorded(k, tight, order, later, turns);
    ApplyNone(k, Apply);
    assert [s, t][..1] == [s];
  }

  lemma {:induction false} NothingRecorded(k: Disk, cfg: Config, order: Order, now: u64, turns: nat)
    requires k.meta == map[]
    ensures Collected(k, cfg, order, now, turns) == []
  {
    hide SumLens, Oldest;
    OldestFound(k, order);
    NothingToExpire(k, order(k.meta.Keys), now);
    DelNone(k);
  }

  /** Where the total fits the limit, a collection is nothing but an expiry: it makes no room beyond that. */
  lemma {:induction false} CollectionOnlyExpires(k: Disk, cfg: Config, order: Order, now: u64, turns: nat)
    requires cfg.maxTotal.Some? ==> Total(k) <= cfg.maxTotal.value
    ensures Collected(k, cfg, order, now, turns) == ExpiredObjects(k, order(k.meta.Keys), now)
  {
    hide Total, Oldest, ExpiredObjects, DelAll;
    var gone := ExpiredObjects(k, order(k.meta.Keys), now);
    DelAllTotal(k, gone);
    assert gone + [] == gone;
  }

  lemma {:induction false} DelAllTotal(k: Disk, removed: seq<Digest>)
    ensures Total(DelAll(k, removed)) <= Total(k)
    decreases |removed|
  {
    hide Total;
    if removed != [] {
      DelTotal(k, removed[0]);
      DelAllTotal(Del(k, removed[0]), removed[1..]);
    }
  }

  /** Where the total fits the limit, a content is refused for lack of room exactly when its length does not
      fit on top of the total, nor on top of what an expiry leaves; whether it is stored already makes no
      difference. A successful add of stored content leaves the total as it is after that expiry, if there
      was one. */
  lemma {:induction false} RefusedIff(k: Disk, cfg: Config, hash: Payload -> Digest, order: Order, c: Payload,
                                      gcNow: u64, now: u64, turns: nat)
    requires !TooBig(cfg, c) && cfg.maxTotal.Some? && Total(k) <= cfg.maxTotal.value
    ensures var r := AddResult(k, cfg, hash, order, c, gcNow, now, turns);
            var l := ApplyAll(k, AddWrites(k, cfg, hash, order, c, gcNow, now, turns), Apply);
            var expired := DelAll(k, ExpiredObjects(k, order(k.meta.Keys), gcNow));
            var base := if NoRoom(k, cfg, c) then expired else k;
            && r.Some?
            && (r.value == Err(StorageFull) <==> NoRoom(k, cfg, c) && NoRoom(expired, cfg, c))
            && (r.value == Err(StorageFull) ==> l == expired)
            && (r.value.Ok? ==> Total(l) == if hash(c) in base.data then Total(base) else SatAdd(Total(base), |c|))
  {
    hide ApplyAll, PutWrites, Total, Oldest, ExpiredObjects, DelAll, DelAllWrites, AddWrites;
    CollectionOnlyExpires(k, cfg, order, gcNow, turns);
    DelNone(k);
    var expired := DelAll(k, ExpiredObjects(k, order(k.meta.Keys), gcNow));
    DelAllTotal(k, ExpiredObjects(k, order(k.meta.Keys), gcNow));
    AddEffect(k, cfg, hash, order, c, gcNow, now, turns);
    var base := if NoRoom(k, cfg, c) then expired else k;
    if !NoRoom(base, cfg, c) && !Corrupt(base, hash, hash(c)) {
      PutStored(base, cfg, hash, c, now);
      TotalOf(base, hash(c), c, ApplyAll(base, PutWrites(base, cfg, hash, c, now), Apply));
    }
  }

  lemma {:induction false} TotalOf(k: Disk, d: Digest, c: Payload, l: Disk)
    requires l.data == if d in k.data then k.data else k.data[d := c]
    ensures Total(l) == if d in k.data then Total(k) else SatAdd(Total(k), |c|)
  {
    hide SumLens;
    PutTotal(k, d, c);
  }

  /** A content that fits its limit, but not twice: once stored it is refused when it is added again. */
  lemma {:induction false} StoredContentRefused(cfg: Config, hash: Payload -> Digest, order: Order, c: Payload,
                                                now: u64, later: u64, turns: nat)
    requires cfg.maxItem.None? && cfg.expiration.None? && cfg.maxTotal.Some? && |c| <= cfg.maxTotal.value < 2 * |c|
    ensures var all := |CopyWrites(hash(c), c)| + 3;
            var k := Run(hash, order, [Step(cfg, Add(c, now, now, turns), all)]);
            && HasRecord(k, hash(c)) && hash(c) in k.data && k.data[hash(c)] == c
            && AddResult(k, cfg, hash, order, c, later, later, turns) == Some(Err(StorageFull))
  {
    hide ApplyAll, CopyWrites, SumLens, Oldest, AddWrites, AddResult, PutWrites;
    var d := hash(c);
    var m := NewMeta(cfg, d, |c|, now);
    var s := Step(cfg, Add(c, now, now, turns), |CopyWrites(d, c)| + 3);
    FirstStep(hash, order, s);
    FirstAdd(cfg, hash, order, c, now, now, turns);
    var k := Run(hash, order, [s]);
    var ws := CopyWrites(d, c) + JsonWrites(m);
    assert Prefix(ws, s.cut) == ws;
    PlainPut(cfg, hash, c, now);
    PutStored(EMPTY_DISK, cfg, hash, c, now);
    PutEffect(EMPTY_DISK, cfg, hash, c, now, |ws|);
    assert k == ApplyAll(EMPTY_DISK, PutWrites(EMPTY_DISK, cfg, hash, c, now), Apply);
    assert k.meta == map[][d := Readable(m)] && k.data == map[][d := c];
    SumLensInsert(map[], d, c);
    SumLensEmpty();
    RefusedIff(k, cfg, hash, order, c, later, later, turns);
    NothingToExpire(k, order(k.meta.Keys), later);
    DelNone(k);
  }

  lemma {:induction false} NothingToExpire(k: Disk, files: seq<Digest>, now: u64)
    requires forall d :: !Expired(k, d, now)
    ensures ExpiredObjects(k, files, now) == []
    decreases |files|
  {
    if files != [] {
      NothingToExpire(k, files[1..], now);
    }
  }

  lemma {:induction false} PlainPut(cfg: Config, hash: Payload -> Digest, c: Payload, now: u64)
    ensures PutWrites(EMPTY_DISK, cfg, hash, c, now) ==
            CopyWrites(hash(c), c) + JsonWrites(NewMeta(cfg, hash(c), |c|, now))
  {
    hide CopyWrites, JsonWrites;
  }
}
