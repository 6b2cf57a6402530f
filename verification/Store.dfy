/** The datastore object. Directory listings come in an order of the file system's own choice. */
module Store {
  import opened Bytes
  import opened Trees
  import opened StoreDisk
  import opened StoreSafety
  import opened StoreGc
  import opened StoreRuns
  import opened StoreLife
  import opened Wrappers
  import opened Writes

  class DataStorage {
    var data: Tree
    var meta: map<Digest, MetaFile>
    var dataTmp: Tree
    var metaTmp: map<Digest, MetaFile>
    const cfg: Config
    const hash: Payload -> Digest

    const order: Order

    /** Every step on the files since the store was opened, in order. */
    ghost var log: seq<Write>

    constructor (k: Disk, cfg: Config, hash: Payload -> Digest, order: Order)
      ensures Content() == k && this.cfg == cfg && this.hash == hash && this.order == order && log == []
    {
      data, meta, dataTmp, metaTmp := k.data, k.meta, k.dataTmp, k.metaTmp;
      this.cfg := cfg;
      this.hash := hash;
      this.order := order;
      log := [];
    }

    function Content(): Disk
      reads this
    {
      Disk(data, meta, dataTmp, metaTmp)
    }

    /** The files moved on by the steps `ws`, and the log says so. */
    twostate predicate Issued(ws: seq<Write>)
      reads this
    {
      Content() == ApplyAll(old(Content()), ws, Apply) && log == old(log) + ws
    }

    /** The one place that touches the files, one step at a time. */
    method Issue(w: Write)
      modifies this
      ensures Issued([w])
      ensures Content() == Apply(old(Content()), w)
    {
      match w {
        case DataTmp(d, c) => dataTmp := dataTmp[d := c];
        case DataRename(d) =>
          if d in dataTmp {
            data := data[d := dataTmp[d]];
            dataTmp := dataTmp - {d};
          }
        case MetaTmp(d, f) => metaTmp := metaTmp[d := f];
        case MetaRename(d) =>
          if d in metaTmp {
            meta := meta[d := metaTmp[d]];
            metaTmp := metaTmp - {d};
          }
        case DelMeta(d) => meta := meta - {d};
        case DelData(d) => data := data - {d};
      }
      log := log + [w];
      ApplyOne(old(Content()), w, Apply);
    }

    method TotalSize() returns (total: u64)
      ensures total == Total(Content())
    {
      hide SumLens;
      var files := order(data.Keys);
      assert Lists(files, data.Keys);
      total := 0;
      ghost var left := data;
      for i := 0 to |files|
        invariant left == data - (set d | d in files[..i])
        invariant SatAdd(SumLens(data), 0) == SatAdd(total, SumLens(left))
        invariant i == |files| ==> left == map[]
      {
        var d := files[i];
        assert d in files;
        assert d !in files[..i];
        assert files[..i + 1] == files[..i] + [d];
        assert d in left;
        SumLensRemove(left, d);
        total := SatAdd(total, |data[d]|);
        left := left - {d};
        if i + 1 == |files| {
          assert files[..i + 1] == files;
        }
      }
      SumLensEmpty();
    }

    /** The first of the smallest creation times in listing order. */
    method OldestRecord() returns (best: Option<Meta>)
      ensures best == match Oldest(Content(), order) case None => None case Some(d) => Some(meta[d].meta)
    {
      ghost var k := Content();
      var files := order(meta.Keys);
      assert Lists(files, meta.Keys);
      best := None;
      for i := 0 to |files|
        invariant best == match OldestIn(k, files[..i]) case None => None case Some(d) => Some(meta[d].meta)
      {
        var d := files[i];
        assert d in files;
        assert files[..i + 1][..i] == files[..i] && files[..i + 1][i] == d;
        if meta[d].Garbage? {
          continue;
        }
        var m := meta[d].meta;
        best := match best
          case None => Some(m)
          case Some(cur) => if m.created < cur.created then Some(m) else Some(cur);
      }
      assert files[..|files|] == files;
    }

    /** Metadata first, then data; either may be missing. */
    method Delete(d: Digest)
      modifies this
      ensures Issued(DelWrites(d))
      ensures Content() == Del(old(Content()), d)
    {
      DelEffect(Content(), d);
      Issue(DelMeta(d));
      Issue(DelData(d));
    }

    /** Deletes what the expired records name, in listing order; a record deleted on the way is skipped. */
    method RemoveExpired(now: u64)
      modifies this
      ensures var k := old(Content());
              var gone := ExpiredObjects(k, order(k.meta.Keys), now);
              Content() == DelAll(k, gone) && log == old(log) + DelAllWrites(gone)
      ensures old(Named(Content())) ==> OnlyExpiredGone(old(Content()), Content(), now)
    {
      hide ExpiredObjects, DelAll, DelAllWrites, DelWrites, Apply, ApplyAll, Named, OnlyExpiredGone;
      ghost var k, log0 := Content(), log;
      var files := order(meta.Keys);
      ghost var gone: seq<Digest> := [];
      DelNone(k);
      assert log0 + [] == log0 && files[0..] == files;
      for i := 0 to |files|
        invariant Content() == DelAll(k, gone) && log == log0 + DelAllWrites(gone)
        invariant ExpiredObjects(k, files, now) == gone + ExpiredObjects(Content(), files[i..], now)
      {
        var d := files[i];
        ExpiryStep(Content(), files, i, now);
        if d in meta && meta[d].Readable? && meta[d].meta.expires.Some? && meta[d].meta.expires.value <= now {
          var sha := meta[d].meta.sha;
          DelSnoc(k, gone, sha);
          Delete(sha);
          gone := gone + [sha];
        }
      }
      ExpiryOver(Content(), files, now);
      assert gone + [] == gone;
      if Named(k) {
        ExpiryInFields(k, order, now);
      }
    }

    /** Expiry, then oldest-first removal while over the limit, watched for `turns` turns; `ended` says
        whether the call has returned by then. */
    method Gc(now: u64, turns: nat) returns (ended: bool)
      modifies this
      ensures var k := old(Content());
              var gone := Collected(k, cfg, order, now, turns);
              Content() == DelAll(k, gone) && log == old(log) + DelAllWrites(gone)
      ensures ended <==> cfg.maxTotal.None? || !Over(Content(), cfg.maxTotal.value, order)
      ensures old(Named(Content())) && (cfg.maxTotal.Some? ==> old(Total(Content())) <= cfg.maxTotal.value) ==>
                OnlyExpiredGone(old(Content()), Content(), now)
    {
      hide DelAll, DelAllWrites, Oldest, ExpiredObjects, Victims, Total, Named, OnlyExpiredGone;
      ghost var k, log0 := Content(), log;
      if Named(k) && (cfg.maxTotal.Some? ==> Total(k) <= cfg.maxTotal.value) {
        CollectionInFields(k, cfg, order, now, turns);
      }
      RemoveExpired(now);
      ended := true;
      if cfg.maxTotal.Some? {
        ghost var gone := ExpiredObjects(k, order(k.meta.Keys), now);
        ended := Shrink(cfg.maxTotal.value, turns);
        DelAllConcat(k, gone, Victims(DelAll(k, gone), cfg.maxTotal.value, order, turns));
      }
    }

    method Shrink(limit: u64, turns: nat) returns (ended: bool)
      modifies this
      ensures var gone := Victims(old(Content()), limit, order, turns);
              Content() == DelAll(old(Content()), gone) && log == old(log) + DelAllWrites(gone)
      ensures ended <==> !Over(Content(), limit, order)
    {
      hide Total, DelAll, DelAllWrites, DelWrites, Oldest, Victims, Del, ApplyAll;
      ghost var k, log0 := Content(), log;
      DelNone(k);
      NoVictims(k, limit, order);
      var left := turns;
      while true
        invariant 0 <= left <= turns
        invariant Content() == DelAll(k, Victims(k, limit, order, turns - left))
        invariant log == log0 + DelAllWrites(Victims(k, limit, order, turns - left))
        decreases left
      {
        var total := TotalSize();
        if total <= limit {
          break;
        }
        var oldest := OldestRecord();
        if oldest.None? {
          break;
        }
        if left == 0 {
          return false;
        }
        OneMoreVictim(k, limit, order, turns - left);
        Delete(oldest.value.sha);
        left := left - 1;
      }
      NoMoreTurns(k, limit, order, turns - left, left);
      ended := true;
    }

    /** Stores a copy under its digest; `None` where the collection has not ended within `turns` turns.
        `gcNow` and `now` are the clock readings of the collection, if one is needed, and of the record. */
    method Add(src: Payload, gcNow: u64, now: u64, turns: nat) returns (r: Option<Result<Meta>>)
      modifies this
      ensures Issued(AddWrites(old(Content()), cfg, hash, order, src, gcNow, now, turns))
      ensures r == AddResult(old(Content()), cfg, hash, order, src, gcNow, now, turns)
      ensures r.Some? && r.value.Ok? ==>
                && HasRecord(Content(), hash(src)) && meta[hash(src)].meta == r.value.value
                && r.value.value == Meta(hash(src), |src|, now, Until(cfg.expiration, now))
                && hash(src) in data && hash(data[hash(src)]) == hash(src)
      ensures r.Some? && r.value.Ok? && cfg.maxTotal.Some? ==> Total(Content()) <= cfg.maxTotal.value
    {
      hide ApplyAll, PutWrites, DelAll, DelAllWrites, Total, Oldest, Cleared;
      ghost var k := Content();
      AddEffect(k, cfg, hash, order, src, gcNow, now, turns);
      NothingIssued(log, DelAllWrites(Cleared(k, cfg, order, src, gcNow, turns)));
      if cfg.maxItem.Some? && |src| > cfg.maxItem.value {
        return Some(Err(ItemTooBig));
      }
      var room := MakeRoom(src, gcNow, turns);
      if room.None? {
        return None;
      }
      if !room.value {
        return Some(Err(StorageFull));
      }
      var stored := Put(src, now);
      r := Some(stored);
    }

    /** The part of an add that sees to the size limit; `None` while the collection goes on. */
    method MakeRoom(src: Payload, gcNow: u64, turns: nat) returns (room: Option<bool>)
      modifies this
      ensures var gone := Cleared(old(Content()), cfg, order, src, gcNow, turns);
              Content() == DelAll(old(Content()), gone) && log == old(log) + DelAllWrites(gone)
      ensures room.None? <==> NoRoom(old(Content()), cfg, src) && Over(Content(), cfg.maxTotal.value, order)
      ensures room == Some(true) <==> !NoRoom(Content(), cfg, src)
    {
      hide DelAll, DelAllWrites, Total, Oldest, Collected;
      DelNone(Content());
      assert log + [] == log;
      if cfg.maxTotal.Some? {
        var total := TotalSize();
        if SatAdd(total, |src|) > cfg.maxTotal.value {
          var ended := Gc(gcNow, turns);
          if !ended {
            OverIsFull(Content(), cfg, order, src);
            return None;
          }
          var total2 := TotalSize();
          return Some(SatAdd(total2, |src|) <= cfg.maxTotal.value);
        }
      }
      room := Some(true);
    }

    /** The part of an add that writes: data if it is not there, then the record. */
    method Put(src: Payload, now: u64) returns (r: Result<Meta>)
      modifies this
      ensures Issued(PutWrites(old(Content()), cfg, hash, src, now))
      ensures r == if old(Corrupt(Content(), hash, hash(src))) then Err(Corruption)
                   else Ok(NewMeta(cfg, hash(src), |src|, now))
      ensures r.Ok? ==>
                && HasRecord(Content(), hash(src)) && meta[hash(src)].meta == r.value
                && r.value == Meta(hash(src), |src|, now, Until(cfg.expiration, now))
                && hash(src) in data && hash(data[hash(src)]) == hash(src)
                && Total(Content()) == if hash(src) in old(data) then old(Total(Content()))
                                       else SatAdd(old(Total(Content())), |src|)
    {
      hide ApplyAll, CopyWrites, JsonWrites, SumLens;
      ghost var base, log0 := Content(), log;
      var d := hash(src);
      var copy := d !in data;
      PutPlan(base, cfg, hash, src, now);
      if !copy && hash(data[d]) != d {
        assert log == log0 + [];
        return Err(Corruption);
      }
      if copy {
        CopyFile(d, src);
      }
      var m := NewMeta(cfg, d, |src|, now);
      JsonWrite(m);
      assert log == log0 + PutWrites(base, cfg, hash, src, now);
      r := Ok(m);
      PutStored(base, cfg, hash, src, now);
      PutTotal(base, d, src);
    }

    method CopyFile(d: Digest, src: Payload)
      modifies this
      ensures Issued(CopyWrites(d, src))
    {
      hide ApplyAll, StreamWrites;
      ghost var k, log0 := Content(), log;
      for i := 0 to |src| + 1
        invariant i == 0 ==> Content() == k && log == log0
        invariant i > 0 ==> Content() == ApplyAll(k, StreamWrites(d, src, i - 1), Apply)
        invariant i > 0 ==> log == log0 + StreamWrites(d, src, i - 1)
      {
        Issue(DataTmp(d, src[..i]));
        StreamOne(k, d, src, i);
      }
      ghost var before := Content();
      Issue(DataRename(d));
      ApplyAllConcat(k, StreamWrites(d, src, |src|), [DataRename(d)], Apply);
      ApplyOne(before, DataRename(d), Apply);
    }

    /** The record goes to a temporary file, which is created, filled and renamed. */
    method JsonWrite(m: Meta)
      modifies this
      ensures Issued(JsonWrites(m))
    {
      hide ApplyAll;
      ghost var k := Content();
      Issue(MetaTmp(m.sha, Garbage));
      Issue(MetaTmp(m.sha, Readable(m)));
      Issue(MetaRename(m.sha));
      var u, v, w := MetaTmp(m.sha, Garbage), MetaTmp(m.sha, Readable(m)), MetaRename(m.sha);
      assert JsonWrites(m) == [u, v] + [w];
      ApplyTwo(k, u, v, Apply);
      ApplyAllConcat(k, [u, v], [w], Apply);
      ApplyOne(Apply(Apply(k, u), v), w, Apply);
    }
  }

  // ---- steps of the proofs above ----

  lemma {:induction false} NothingIssued(log: seq<Write>, ws: seq<Write>)
    ensures log + [] == log && ws + [] == ws
  {
  }

  lemma {:induction false} NoVictims(k: Disk, limit: u64, order: Order)
    ensures Victims(k, limit, order, 0) == []
  {
  }

  lemma OneMoreVictim(k: Disk, limit: u64, order: Order, n: nat)
    requires Over(Turns(k, limit, order, n), limit, order)
    ensures var gone := Victims(k, limit, order, n);
            var more := Victims(k, limit, order, n + 1);
            var sha := Victim(Turns(k, limit, order, n), order);
            && DelAll(k, more) == Del(DelAll(k, gone), sha)
            && DelAllWrites(more) == DelAllWrites(gone) + DelWrites(sha)
  {
    hide Total, DelAll, DelAllWrites, DelWrites, Oldest, Victims;
    TurnsSnoc(k, limit, order, n);
    DelSnoc(k, Victims(k, limit, order, n), Victim(Turns(k, limit, order, n), order));
  }

  lemma {:induction false} ExpiryStep(k: Disk, files: seq<Digest>, i: nat, now: u64)
    requires i < |files|
    ensures Expired(k, files[i], now) ==>
              var sha := k.meta[files[i]].meta.sha;
              ExpiredObjects(k, files[i..], now) == [sha] + ExpiredObjects(Del(k, sha), files[i + 1..], now)
    ensures !Expired(k, files[i], now) ==> ExpiredObjects(k, files[i..], now) == ExpiredObjects(k, files[i + 1..], now)
  {
    assert files[i..][0] == files[i] && files[i..][1..] == files[i + 1..];
  }

  lemma {:induction false} ExpiryOver(k: Disk, files: seq<Digest>, now: u64)
    ensures ExpiredObjects(k, files[|files|..], now) == []
  {
  }

  lemma StreamOne(k: Disk, d: Digest, c: Payload, i: nat)
    requires i <= |c|
    ensures var before := if i == 0 then k else ApplyAll(k, StreamWrites(d, c, i - 1), Apply);
            && ApplyAll(k, StreamWrites(d, c, i), Apply) == Apply(before, DataTmp(d, c[..i]))
            && StreamWrites(d, c, i) == (if i == 0 then [] else StreamWrites(d, c, i - 1)) + [DataTmp(d, c[..i])]
  {
    hide ApplyAll;
    var front := if i == 0 then [] else StreamWrites(d, c, i - 1);
    ApplyAllConcat(k, front, [DataTmp(d, c[..i])], Apply);
    ApplyOne(ApplyAll(k, front, Apply), DataTmp(d, c[..i]), Apply);
    ApplyOne(k, DataTmp(d, c[..i]), Apply);
  }

  /** The plan of an add, in its two stages. */
  lemma {:induction false} PutPlan(k: Disk, cfg: Config, hash: Payload -> Digest, c: Payload, now: u64)
    ensures var d := hash(c);
            var m := NewMeta(cfg, d, |c|, now);
            var l := ApplyAll(k, PutWrites(k, cfg, hash, c, now), Apply);
            if Corrupt(k, hash, d) then l == k
            else l == ApplyAll(if d in k.data then k else ApplyAll(k, CopyWrites(d, c), Apply), JsonWrites(m), Apply)
  {
    hide ApplyAll, CopyWrites, JsonWrites;
    var d := hash(c);
    ApplyOne(k, DelData(d), Apply);
    ApplyAllConcat(k, if d in k.data then [] else CopyWrites(d, c), JsonWrites(NewMeta(cfg, d, |c|, now)), Apply);
  }

}
