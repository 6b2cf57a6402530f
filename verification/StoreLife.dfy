/** How long an object lives, in plain arithmetic on the clock readings. */
module StoreLife {
  import opened Bytes
  import opened Trees
  import opened StoreDisk
  import opened StoreSafety
  import opened StoreGc
  import opened StoreRuns
  import opened Wrappers
  import opened Writes

  // ---- one operation ----

  /** `l` is `k` without the readable records that have an expiry time not after `now`, and their data. */
  ghost predicate OnlyExpiredGone(k: Disk, l: Disk, now: u64) {
    && l.dataTmp == k.dataTmp && l.metaTmp == k.metaTmp
    && forall d: Digest ::
         var over := d in k.meta && k.meta[d].Readable? && k.meta[d].meta.expires.Some?
                     && k.meta[d].meta.expires.value <= now;
         && (over ==> d !in l.meta && d !in l.data)
         && (!over ==> (d in l.meta <==> d in k.meta) && (d in k.meta ==> l.meta[d] == k.meta[d]))
         && (!over ==> (d in l.data <==> d in k.data) && (d in k.data ==> l.data[d] == k.data[d]))
  }

  /** That is what expiry comes to on named records. */
  lemma {:induction false} ExpiryInFields(k: Disk, order: Order, now: u64)
    requires Named(k)
    ensures OnlyExpiredGone(k, DelAll(k, ExpiredObjects(k, order(k.meta.Keys), now)), now)
  {
    hide ExpiredObjects, DelAll;
    ExpiryExact(k, order, now);
  }

  /** And so does a collection within the limit. */
  lemma {:induction false} CollectionInFields(k: Disk, cfg: Config, order: Order, now: u64, turns: nat)
    requires Named(k) && (cfg.maxTotal.Some? ==> Total(k) <= cfg.maxTotal.value)
    ensures OnlyExpiredGone(k, DelAll(k, Collected(k, cfg, order, now, turns)), now)
  {
    hide ExpiredObjects, DelAll, Total, Collected, Named, OnlyExpiredGone;
    CollectionOnlyExpires(k, cfg, order, now, turns);
    ExpiryInFields(k, order, now);
  }

  /** The end of an object's life: so many seconds after it was added, in saturating arithmetic. */
  function Until(expiration: Option<u64>, now: u64): Option<u64> {
    match expiration
    case None => None
    case Some(secs) => Some(if now + secs > 0xFFFF_FFFF_FFFF_FFFF then 0xFFFF_FFFF_FFFF_FFFF else now + secs)
  }

  /** An add that succeeds leaves the whole content, under a record with its length, the clock reading as creation
      time and the reading plus the configured expiration as expiry time. */
  lemma {:induction false} AddRecord(k: Disk, cfg: Config, hash: Payload -> Digest, order: Order, c: Payload,
                                     gcNow: u64, now: u64, turns: nat, cut: nat)
    requires AddResult(k, cfg, hash, order, c, gcNow, now, turns).Some?
    requires AddResult(k, cfg, hash, order, c, gcNow, now, turns).value.Ok?
    requires cut >= |AddWrites(k, cfg, hash, order, c, gcNow, now, turns)|
    ensures var l := After(k, hash, order, Step(cfg, Add(c, gcNow, now, turns), cut));
            && hash(c) in l.data && hash(l.data[hash(c)]) == hash(c)
            && HasRecord(l, hash(c)) && l.meta[hash(c)].meta == Meta(hash(c), |c|, now, Until(cfg.expiration, now))
            && AddResult(k, cfg, hash, order, c, gcNow, now, turns) == Some(Ok(l.meta[hash(c)].meta))
  {
    hide ApplyAll, PutWrites, DelAll, DelAllWrites, Total, Oldest, Cleared, NoRoom, AddWrites;
    var base := DelAll(k, Cleared(k, cfg, order, c, gcNow, turns));
    AddEffect(k, cfg, hash, order, c, gcNow, now, turns);
    WholeAdd(k, cfg, hash, order, c, gcNow, now, turns, cut);
    NotFull(k, cfg, hash, order, c, gcNow, now, turns);
    PutStored(base, cfg, hash, c, now);
  }

  lemma {:induction false} NotFull(k: Disk, cfg: Config, hash: Payload -> Digest, order: Order, c: Payload,
                                   gcNow: u64, now: u64, turns: nat)
    requires AddResult(k, cfg, hash, order, c, gcNow, now, turns).Some?
    requires AddResult(k, cfg, hash, order, c, gcNow, now, turns).value.Ok?
    ensures var base := DelAll(k, Cleared(k, cfg, order, c, gcNow, turns));
            !TooBig(cfg, c) && !NoRoom(base, cfg, c) && !Corrupt(base, hash, hash(c))
  {
    hide DelAll, Total, Oldest, Cleared, NoRoom;
  }

  lemma {:induction false} WholeAdd(k: Disk, cfg: Config, hash: Payload -> Digest, order: Order, c: Payload,
                                    gcNow: u64, now: u64, turns: nat, cut: nat)
    requires cut >= |AddWrites(k, cfg, hash, order, c, gcNow, now, turns)|
    ensures After(k, hash, order, Step(cfg, Add(c, gcNow, now, turns), cut)) ==
            ApplyAll(k, AddWrites(k, cfg, hash, order, c, gcNow, now, turns), Apply)
  {
    hide ApplyAll, AddWrites;
  }

  /** So many bytes and the content fit the limit; a limit of 2^64 - 1 is none, as the total saturates there. */
  ghost predicate Fits(cfg: Config, bytes: nat, c: Payload) {
    cfg.maxTotal.None? || cfg.maxTotal.value == 0xFFFF_FFFF_FFFF_FFFF || bytes + |c| <= cfg.maxTotal.value
  }

  lemma {:induction false} FitsIff(k: Disk, cfg: Config, c: Payload)
    ensures NoRoom(k, cfg, c) <==> !Fits(cfg, SumLens(k.data), c)
  {
    hide SumLens;
  }

  /** Every answer of an add to a store within its limit, and what each leaves, in bytes. */
  lemma {:induction false} AddAnswers(k: Disk, cfg: Config, hash: Payload -> Digest, order: Order, c: Payload,
                                      gcNow: u64, now: u64, turns: nat)
    requires cfg.maxTotal.Some? ==> Total(k) <= cfg.maxTotal.value
    ensures var r := AddResult(k, cfg, hash, order, c, gcNow, now, turns);
            var l := ApplyAll(k, AddWrites(k, cfg, hash, order, c, gcNow, now, turns), Apply);
            var expired := DelAll(k, ExpiredObjects(k, order(k.meta.Keys), gcNow));
            var base := if Fits(cfg, SumLens(k.data), c) then k else expired;
            var d := hash(c);
            && r.Some?
            && (if cfg.maxItem.Some? && |c| > cfg.maxItem.value then r.value == Err(ItemTooBig) && l == k
                else if !Fits(cfg, SumLens(base.data), c) then r.value == Err(StorageFull) && l == base
                else if d in base.data && hash(base.data[d]) != d then r.value == Err(Corruption) && l == base
                else
                  && r.value == Ok(Meta(d, |c|, now, Until(cfg.expiration, now)))
                  && l.data == (if d in base.data then base.data else base.data[d := c])
                  && l.meta == base.meta[d := Readable(Meta(d, |c|, now, Until(cfg.expiration, now)))])
  {
    hide ApplyAll, PutWrites, Total, Oldest, ExpiredObjects, DelAll, AddWrites, NoRoom, Fits, Cleared, SumLens;
    hide Corrupt, NewMeta, Until, Over;
    var expired := DelAll(k, ExpiredObjects(k, order(k.meta.Keys), gcNow));
    var base := if NoRoom(k, cfg, c) then expired else k;
    ClearedWithin(k, cfg, order, c, gcNow, turns);
    FitsIff(k, cfg, c);
    FitsIff(base, cfg, c);
    AddEffect(k, cfg, hash, order, c, gcNow, now, turns);
    PutAnswer(base, cfg, hash, c, now);
  }

  /** Within the limit an add asks for no more than an expiry, and that has ended when it goes on. */
  lemma {:induction false} ClearedWithin(k: Disk, cfg: Config, order: Order, c: Payload, gcNow: u64, turns: nat)
    requires cfg.maxTotal.Some? ==> Total(k) <= cfg.maxTotal.value
    ensures var expired := DelAll(k, ExpiredObjects(k, order(k.meta.Keys), gcNow));
            var base := DelAll(k, Cleared(k, cfg, order, c, gcNow, turns));
            && base == (if NoRoom(k, cfg, c) then expired else k)
            && (NoRoom(k, cfg, c) ==> cfg.maxTotal.Some? && !Over(base, cfg.maxTotal.value, order))
  {
    hide Total, Oldest, ExpiredObjects, DelAll, Collected;
    CollectionOnlyExpires(k, cfg, order, gcNow, turns);
    DelNone(k);
    DelAllTotal(k, ExpiredObjects(k, order(k.meta.Keys), gcNow));
  }

  lemma {:induction false} PutAnswer(k: Disk, cfg: Config, hash: Payload -> Digest, c: Payload, now: u64)
    ensures var d := hash(c);
            var l := ApplyAll(k, PutWrites(k, cfg, hash, c, now), Apply);
            && NewMeta(cfg, d, |c|, now) == Meta(d, |c|, now, Until(cfg.expiration, now))
            && (Corrupt(k, hash, d) <==> d in k.data && hash(k.data[d]) != d)
            && (Corrupt(k, hash, d) ==> l == k)
            && (!Corrupt(k, hash, d) ==>
                  && l.data == (if d in k.data then k.data else k.data[d := c])
                  && l.meta == k.meta[d := Readable(NewMeta(cfg, d, |c|, now))])
  {
    hide ApplyAll, PutWrites;
    var ws := PutWrites(k, cfg, hash, c, now);
    PutEffect(k, cfg, hash, c, now, |ws|);
    assert Prefix(ws, |ws|) == ws;
  }

  // ---- what leaves an object alone ----

  /** A step that neither deletes nor adds the object, at a clock reading before its end. */
  predicate Spares(s: Step, hash: Payload -> Digest, d: Digest, until: Option<u64>) {
    match s.event
    case Add(c, gcNow, _, _) => hash(c) != d && (until.Some? ==> gcNow < until.value)
    case Collect(gcNow, _) => until.Some? ==> gcNow < until.value
    case Delete(x) => x != d
  }

  /** No step runs under a limit below one that something was added under before. */
  ghost predicate NeverLowered(steps: seq<Step>) {
    forall i :: 0 <= i < |steps| && steps[i].cfg.maxTotal.Some? ==> Limited(steps[..i], steps[i].cfg.maxTotal.value)
  }

  ghost predicate Whole(k: Disk, d: Digest, m: Meta, c: Payload) {
    d in k.meta && k.meta[d] == Readable(m) && d in k.data && k.data[d] == c
  }

  lemma {:induction false} OtherDeletions(k: Disk, removed: seq<Digest>, cut: nat, d: Digest, m: Meta, c: Payload)
    requires Whole(k, d, m, c) && d !in removed
    ensures Whole(ApplyAll(k, Prefix(DelAllWrites(removed), cut), Apply), d, m, c)
    ensures Whole(DelAll(k, removed), d, m, c)
    decreases |removed|
  {
    hide ApplyAll, DelWrites;
    if removed == [] {
      ApplyNone(k, Apply);
    } else {
      var x, rest := removed[0], removed[1..];
      var n := |DelWrites(x)|;
      PrefixOfConcat(DelWrites(x), DelAllWrites(rest), cut);
      OtherDeletion(k, x, cut, d, m, c);
      DelEffect(k, x);
      OtherDeletions(Del(k, x), rest, if cut > n then cut - n else 0, d, m, c);
      if cut > n {
        ApplyAllConcat(k, DelWrites(x), Prefix(DelAllWrites(rest), cut - n), Apply);
      }
    }
  }

  lemma {:induction false} OtherDeletion(k: Disk, x: Digest, cut: nat, d: Digest, m: Meta, c: Payload)
    requires Whole(k, d, m, c) && d != x
    ensures Whole(ApplyAll(k, Prefix(DelWrites(x), cut), Apply), d, m, c) && Whole(Del(k, x), d, m, c)
  {
    hide ApplyAll;
    PrefixTwo(k, DelMeta(x), DelData(x), cut, Apply);
  }

  lemma {:induction false} NotExpired(k: Disk, files: seq<Digest>, now: u64, d: Digest)
    requires Named(k) && HasRecord(k, d)
    requires k.meta[d].meta.expires.Some? ==> now < k.meta[d].meta.expires.value
    ensures d !in ExpiredObjects(k, files, now)
    decreases |files|
  {
    if files != [] {
      if Expired(k, files[0], now) {
        NotExpired(Del(k, files[0]), files[1..], now, d);
      } else {
        NotExpired(k, files[1..], now, d);
      }
    }
  }

  lemma {:induction false} OtherAdd(k: Disk, cfg: Config, hash: Payload -> Digest, c2: Payload, now: u64, cut: nat,
                                    d: Digest, m: Meta, c: Payload)
    requires Whole(k, d, m, c) && hash(c2) != d
    ensures Whole(ApplyAll(k, Prefix(PutWrites(k, cfg, hash, c2, now), cut), Apply), d, m, c)
  {
    hide ApplyAll, PutWrites;
    PutEffect(k, cfg, hash, c2, now, cut);
  }

  /** A step that spares an object leaves it alone, wherever it is stopped, if its limit is met before. */
  lemma {:induction false} StepSpares(k: Disk, hash: Payload -> Digest, order: Order, s: Step,
                                      d: Digest, m: Meta, c: Payload)
    requires Named(k) && Whole(k, d, m, c) && Spares(s, hash, d, m.expires)
    requires s.cfg.maxTotal.Some? ==> Total(k) <= s.cfg.maxTotal.value
    ensures Whole(After(k, hash, order, s), d, m, c)
  {
    hide ApplyAll, PutWrites, DelAllWrites, DelAll, DelWrites, Collected, ExpiredObjects, Total, Named, Whole;
    match s.event {
      case Add(c2, gcNow, now, turns) =>
        AddSpares(k, s.cfg, hash, order, c2, gcNow, now, turns, s.cut, d, m, c);
      case Collect(gcNow, turns) =>
        CollectionOnlyExpires(k, s.cfg, order, gcNow, turns);
        WholeLasts(k, order, gcNow, d, m, c);
        OtherDeletions(k, Collected(k, s.cfg, order, gcNow, turns), s.cut, d, m, c);
      case Delete(x) =>
        OtherDeletion(k, x, s.cut, d, m, c);
    }
  }

  lemma {:induction false} WholeLasts(k: Disk, order: Order, now: u64, d: Digest, m: Meta, c: Payload)
    requires Named(k) && Whole(k, d, m, c) && (m.expires.Some? ==> now < m.expires.value)
    ensures d !in ExpiredObjects(k, order(k.meta.Keys), now)
  {
    NotExpired(k, order(k.meta.Keys), now, d);
  }

  lemma {:induction false} AddSpares(k: Disk, cfg: Config, hash: Payload -> Digest, order: Order, c2: Payload,
                                     gcNow: u64, now: u64, turns: nat, cut: nat, d: Digest, m: Meta, c: Payload)
    requires Named(k) && Whole(k, d, m, c) && hash(c2) != d && (m.expires.Some? ==> gcNow < m.expires.value)
    requires cfg.maxTotal.Some? ==> Total(k) <= cfg.maxTotal.value
    ensures Whole(ApplyAll(k, Prefix(AddWrites(k, cfg, hash, order, c2, gcNow, now, turns), cut), Apply), d, m, c)
  {
    hide ApplyAll, PutWrites, DelAll, DelAllWrites, Named, NoRoom, Whole, Total, Collected, ExpiredObjects;
    ApplyNone(k, Apply);
    if !TooBig(cfg, c2) {
      var gone := Cleared(k, cfg, order, c2, gcNow, turns);
      var base := DelAll(k, gone);
      var ws, puts := DelAllWrites(gone), if NoRoom(base, cfg, c2) then [] else PutWrites(base, cfg, hash, c2, now);
      CollectionOnlyExpires(k, cfg, order, gcNow, turns);
      WholeLasts(k, order, gcNow, d, m, c);
      PrefixOfConcat(ws, puts, cut);
      OtherDeletions(k, gone, cut, d, m, c);
      if cut > |ws| {
        DelAllIsWrites(k, gone);
        OtherAdd(base, cfg, hash, c2, now, cut - |ws|, d, m, c);
        ApplyNone(base, Apply);
        ApplyAllConcat(k, ws, Prefix(puts, cut - |ws|), Apply);
      }
    }
  }

  // ---- over runs ----

  lemma {:induction false} RunSnoc(hash: Payload -> Digest, order: Order, front: seq<Step>, last: Step)
    ensures Run(hash, order, front + [last]) == After(Run(hash, order, front), hash, order, last)
  {
    hide After;
    assert (front + [last])[..|front|] == front;
  }

  /** An object stays whole over any run of steps that spare it, each stopped anywhere. */
  lemma {:induction false} ObjectStays(hash: Payload -> Digest, order: Order, a: seq<Step>, b: seq<Step>,
                                       d: Digest, m: Meta, c: Payload)
    requires NeverLowered(a + b) && Whole(Run(hash, order, a), d, m, c)
    requires forall i :: 0 <= i < |b| ==> Spares(b[i], hash, d, m.expires)
    ensures Whole(Run(hash, order, a + b), d, m, c)
    decreases |b|
  {
    hide Run, After, Whole, Spares, Limited, Total, Named;
    if b == [] {
      assert a + b == a;
    } else {
      var n := |b| - 1;
      var front, last := a + b[..n], b[n];
      assert a + b == front + [last];
      EarlierLimits(front, last);
      ObjectStays(hash, order, a, b[..n], d, m, c);
      LimitMet(hash, order, front, last);
      AlwaysNamed(hash, order, front);
      StepSpares(Run(hash, order, front), hash, order, last, d, m, c);
      RunSnoc(hash, order, front, last);
    }
  }

  lemma {:induction false} EarlierLimits(front: seq<Step>, last: Step)
    requires NeverLowered(front + [last])
    ensures NeverLowered(front)
  {
    hide Limited;
    var all := front + [last];
    forall i | 0 <= i < |front| && front[i].cfg.maxTotal.Some?
      ensures Limited(front[..i], front[i].cfg.maxTotal.value)
    {
      assert all[i] == front[i] && all[..i] == front[..i];
    }
  }

  lemma {:induction false} LimitMet(hash: Payload -> Digest, order: Order, front: seq<Step>, last: Step)
    requires NeverLowered(front + [last])
    ensures last.cfg.maxTotal.Some? ==> Total(Run(hash, order, front)) <= last.cfg.maxTotal.value
  {
    hide Run, Limited, Total;
    var all := front + [last];
    assert all[..|front|] == front && all[|front|] == last;
    if last.cfg.maxTotal.Some? {
      assert Limited(all[..|front|], all[|front|].cfg.maxTotal.value);
      AlwaysWithinLimit(hash, order, front, last.cfg.maxTotal.value);
    }
  }

  /** A finished add that succeeds. */
  ghost predicate Succeeds(k: Disk, hash: Payload -> Digest, order: Order, s: Step) {
    match s.event
    case Add(c, gcNow, now, turns) =>
      && AddResult(k, s.cfg, hash, order, c, gcNow, now, turns).Some?
      && AddResult(k, s.cfg, hash, order, c, gcNow, now, turns).value.Ok?
      && s.cut >= |AddWrites(k, s.cfg, hash, order, c, gcNow, now, turns)|
    case _ => false
  }

  lemma OnlyAddsSucceed(k: Disk, hash: Payload -> Digest, order: Order, s: Step)
    requires Succeeds(k, hash, order, s)
    ensures s.event.Add?
  {
  }

  lemma {:induction false} AddedWhole(hash: Payload -> Digest, order: Order, a: seq<Step>, s: Step)
    returns (m: Meta, c: Payload)
    requires Succeeds(Run(hash, order, a), hash, order, s)
    ensures Whole(Run(hash, order, a + [s]), hash(s.event.content), m, c)
    ensures m.created == s.event.now && m.expires == Until(s.cfg.expiration, s.event.now)
  {
    hide Run, After, AddResult, AddWrites;
    var k := Run(hash, order, a);
    AddRecord(k, s.cfg, hash, order, s.event.content, s.event.gcNow, s.event.now, s.event.turns, s.cut);
    RunSnoc(hash, order, a, s);
    var l := After(k, hash, order, s);
    var d := hash(s.event.content);
    m, c := l.meta[d].meta, l.data[d];
  }

  /** An object added at `now` is there after a finished collection at `t`, whatever has happened meanwhile that
      spares it, if and only if `t` is before `now` plus the expiration, saturated at 2^64 - 1; if and only if
      nothing, where no expiration is configured. */
  lemma {:induction false} ObjectLifetime(hash: Payload -> Digest, order: Order, a: seq<Step>, add: Step,
                                          b: seq<Step>, last: Step)
    requires Succeeds(Run(hash, order, a), hash, order, add)
    requires last.event.Collect?
    requires var k := Run(hash, order, a + [add] + b);
             last.cut >= |EventWrites(k, last.cfg, hash, order, last.event)|
    requires NeverLowered(a + [add] + b + [last])
    requires forall i :: 0 <= i < |b| ==>
               Spares(b[i], hash, hash(add.event.content), Until(add.cfg.expiration, add.event.now))
    ensures var d, k := hash(add.event.content), Run(hash, order, a + [add] + b + [last]);
            var lives := match add.cfg.expiration
              case None => true
              case Some(secs) =>
                last.event.gcNow < 0xFFFF_FFFF_FFFF_FFFF && last.event.gcNow < add.event.now + secs;
            if lives then HasRecord(k, d) && k.meta[d].meta.created == add.event.now && d in k.data
            else d !in k.meta && d !in k.data
  {
    hide Run, After, Whole, Spares, NeverLowered, Succeeds, Total, Named, Collected, ExpiredObjects;
    hide DelAll, EventWrites;
    OnlyAddsSucceed(Run(hash, order, a), hash, order, add);
    var d := hash(add.event.content);
    var m, c := AddedWhole(hash, order, a, add);
    var front := a + [add] + b;
    EarlierLimits(front, last);
    ObjectStays(hash, order, a + [add], b, d, m, c);
    var k := Run(hash, order, front);
    AlwaysNamed(hash, order, front);
    LimitMet(hash, order, front, last);
    FinishedCollection(k, hash, order, last);
    RunSnoc(hash, order, front, last);
    ExpiryInFields(k, order, last.event.gcNow);
    WholeFields(k, d, m, c);
  }

  lemma WholeFields(k: Disk, d: Digest, m: Meta, c: Payload)
    requires Whole(k, d, m, c)
    ensures HasRecord(k, d) && k.meta[d].meta == m && d in k.data
  {
  }

  lemma {:induction false} FinishedCollection(k: Disk, hash: Payload -> Digest, order: Order, s: Step)
    requires s.event.Collect? && s.cut >= |EventWrites(k, s.cfg, hash, order, s.event)|
    requires s.cfg.maxTotal.Some? ==> Total(k) <= s.cfg.maxTotal.value
    ensures After(k, hash, order, s) == DelAll(k, ExpiredObjects(k, order(k.meta.Keys), s.event.gcNow))
  {
    hide ApplyAll, DelAll, DelAllWrites, Collected, ExpiredObjects, Total;
    CollectionOnlyExpires(k, s.cfg, order, s.event.gcNow, s.event.turns);
    DelAllIsWrites(k, Collected(k, s.cfg, order, s.event.gcNow, s.event.turns));
  }

  // ---- who goes first ----

  /** However long the size phase is watched, each removed object is no younger than what is left then. */
  lemma {:induction false} VictimsByAge(k: Disk, limit: u64, order: Order, n: nat, i: nat, e: Digest)
    requires Named(k) && i < |Victims(k, limit, order, n)|
    requires HasRecord(k, e) && e !in Victims(k, limit, order, n)[..i]
    ensures HasRecord(k, Victims(k, limit, order, n)[i])
    ensures k.meta[Victims(k, limit, order, n)[i]].meta.created <= k.meta[e].meta.created
    decreases n
  {
    hide Oldest, Total;
    OldestFound(k, order);
    var sha := Victim(k, order);
    var rest := Victims(Del(k, sha), limit, order, n - 1);
    var all := Victims(k, limit, order, n);
    assert all == [sha] + rest;
    if i > 0 {
      assert all[..i] == [sha] + rest[..i - 1];
      assert sha in all[..i];
      VictimsByAge(Del(k, sha), limit, order, n - 1, i - 1, e);
    }
  }

  /** Of two objects, the size phase of a store with whatever limit takes the one first that was added at the
      smaller clock reading. */
  lemma {:induction false} EarlierGoesFirst(
      hash: Payload -> Digest, order: Order, a: seq<Step>, x: Step, b: seq<Step>, y: Step, rest: seq<Step>,
      limit: u64, n: nat, i: nat)
    requires Succeeds(Run(hash, order, a), hash, order, x)
    requires Succeeds(Run(hash, order, a + [x] + b), hash, order, y)
    requires NeverLowered(a + [x] + b + [y] + rest)
    requires var d, until := hash(x.event.content), Until(x.cfg.expiration, x.event.now);
             forall j :: 0 <= j < |b + [y] + rest| ==> Spares((b + [y] + rest)[j], hash, d, until)
    requires var d, until := hash(y.event.content), Until(y.cfg.expiration, y.event.now);
             forall j :: 0 <= j < |rest| ==> Spares(rest[j], hash, d, until)
    requires var gone := Victims(Run(hash, order, a + [x] + b + [y] + rest), limit, order, n);
             && i < |gone| && gone[i] == hash(if x.event.now < y.event.now then y.event.content else x.event.content)
    requires x.event.now != y.event.now
    ensures var gone := Victims(Run(hash, order, a + [x] + b + [y] + rest), limit, order, n);
            hash(if x.event.now < y.event.now then x.event.content else y.event.content) in gone[..i]
  {
    hide Run, After, Whole, Spares, NeverLowered, Succeeds, Total, Named, Victims;
    OnlyAddsSucceed(Run(hash, order, a), hash, order, x);
    OnlyAddsSucceed(Run(hash, order, a + [x] + b), hash, order, y);
    var all := a + [x] + b + [y] + rest;
    var m, c := AddedWhole(hash, order, a, x);
    assert a + [x] + (b + [y] + rest) == all;
    ObjectStays(hash, order, a + [x], b + [y] + rest, hash(x.event.content), m, c);
    var m', c' := AddedWhole(hash, order, a + [x] + b, y);
    ObjectStays(hash, order, a + [x] + b + [y], rest, hash(y.event.content), m', c');
    var k := Run(hash, order, all);
    AlwaysNamed(hash, order, all);
    WholeFields(k, hash(x.event.content), m, c);
    WholeFields(k, hash(y.event.content), m', c');
    var early := hash(if x.event.now < y.event.now then x.event.content else y.event.content);
    if early !in Victims(k, limit, order, n)[..i] {
      VictimsByAge(k, limit, order, n, i, early);
    }
  }
}
