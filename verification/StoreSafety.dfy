/** Metadata present means the object is ready: at every point at which the store may be stopped. */
module StoreSafety {
  import opened Bytes
  import opened Trees
  import opened StoreDisk
  import opened Writes

  ghost predicate Injective(hash: Payload -> Digest) {
    forall a, b :: hash(a) == hash(b) ==> a == b
  }

  /** Every metadata file is a record of its own name, with the data beside it, whole. */
  ghost predicate Ready(k: Disk, hash: Payload -> Digest) {
    && (forall d :: d in k.meta ==>
          && k.meta[d].Readable? && k.meta[d].meta.sha == d
          && d in k.data && |k.data[d]| == k.meta[d].meta.size)
    && (forall d :: d in k.data ==> hash(k.data[d]) == d)
  }

  lemma {:induction false} DelEffect(k: Disk, d: Digest)
    ensures ApplyAll(k, DelWrites(d), Apply) == Del(k, d)
  {
    ApplyTwo(k, DelMeta(d), DelData(d), Apply);
  }

  /** Two disks that differ in temporary files only. */
  ghost predicate SameFiles(k: Disk, l: Disk) {
    k.data == l.data && k.meta == l.meta
  }

  lemma {:induction false} StreamEffect(k: Disk, d: Digest, c: Payload, upTo: nat, cut: nat)
    requires upTo <= |c|
    ensures var l := ApplyAll(k, Prefix(StreamWrites(d, c, upTo), cut), Apply);
            && SameFiles(k, l) && l.metaTmp == k.metaTmp
            && (cut >= |StreamWrites(d, c, upTo)| ==> l.dataTmp == k.dataTmp[d := c[..upTo]])
    decreases upTo
  {
    hide ApplyAll;
    var last := [DataTmp(d, c[..upTo])];
    var front := if upTo == 0 then [] else StreamWrites(d, c, upTo - 1);
    ApplyOne(k, last[0], Apply);
    if upTo != 0 {
      StreamEffect(k, d, c, upTo - 1, cut);
    }
    if cut <= |front| {
      assert Prefix(front + last, cut) == Prefix(front, cut);
    } else {
      assert Prefix(front + last, cut) == front + last;
      ApplyAllConcat(k, front, last, Apply);
      ApplyOne(ApplyAll(k, front, Apply), last[0], Apply);
      assert Prefix(front, cut) == front;
    }
  }

  lemma {:induction false} CopyEffect(k: Disk, d: Digest, c: Payload, cut: nat)
    ensures var l := ApplyAll(k, Prefix(CopyWrites(d, c), cut), Apply);
            && l.meta == k.meta && l.metaTmp == k.metaTmp
            && (if cut >= |CopyWrites(d, c)| then l.data == k.data[d := c] else l.data == k.data)
  {
    hide ApplyAll, StreamWrites;
    var front := StreamWrites(d, c, |c|);
    StreamEffect(k, d, c, |c|, cut);
    if cut <= |front| {
      assert Prefix(front + [DataRename(d)], cut) == Prefix(front, cut);
    } else {
      assert Prefix(front + [DataRename(d)], cut) == front + [DataRename(d)];
      assert Prefix(front, cut) == front;
      ApplyAllConcat(k, front, [DataRename(d)], Apply);
      ApplyOne(ApplyAll(k, front, Apply), DataRename(d), Apply);
      assert c[..|c|] == c;
    }
  }

  lemma {:induction false} JsonEffect(k: Disk, m: Meta, cut: nat)
    ensures var l := ApplyAll(k, Prefix(JsonWrites(m), cut), Apply);
            && l.data == k.data
            && (if cut >= 3 then l.meta == k.meta[m.sha := Readable(m)] else l.meta == k.meta)
  {
    hide ApplyAll;
    var u, v, w := MetaTmp(m.sha, Garbage), MetaTmp(m.sha, Readable(m)), MetaRename(m.sha);
    assert [u, v, w][..0] == [] && [u, v, w][..1] == [u] && [u, v, w][..2] == [u, v];
    assert [u, v, w] == [u, v] + [w];
    ApplyOne(k, u, Apply);
    ApplyTwo(k, u, v, Apply);
    ApplyAllConcat(k, [u, v], [w], Apply);
    ApplyOne(Apply(Apply(k, u), v), w, Apply);
  }

  /** How far an add has come when it is stopped: nothing visible, data only, or data and metadata. */
  lemma {:induction false} PutEffect(k: Disk, cfg: Config, hash: Payload -> Digest, c: Payload, now: u64, cut: nat)
    ensures var d := hash(c);
            var ws := PutWrites(k, cfg, hash, c, now);
            var l := ApplyAll(k, Prefix(ws, cut), Apply);
            var stored := if d in k.data then k.data else k.data[d := c];
            && (l.data == k.data || l.data == stored)
            && (l.meta == k.meta
                || (l.data == stored && !Corrupt(k, hash, d)
                    && l.meta == k.meta[d := Readable(NewMeta(cfg, d, |c|, now))]))
            && (cut >= |ws| && !Corrupt(k, hash, d) ==>
                  l.data == stored && l.meta == k.meta[d := Readable(NewMeta(cfg, d, |c|, now))])
            && (Corrupt(k, hash, d) ==> l == k)
  {
    hide ApplyAll, CopyWrites, JsonWrites;
    var d := hash(c);
    var m := NewMeta(cfg, d, |c|, now);
    ApplyOne(k, DelData(d), Apply);
    if !Corrupt(k, hash, d) {
      var copy := if d in k.data then [] else CopyWrites(d, c);
      var json := JsonWrites(m);
      CopyEffect(k, d, c, cut);
      if cut < |copy| {
        assert Prefix(copy + json, cut) == Prefix(copy, cut);
      } else {
        assert Prefix(copy + json, cut) == copy + Prefix(json, cut - |copy|);
        ApplyAllConcat(k, copy, Prefix(json, cut - |copy|), Apply);
        assert Prefix(copy, cut) == copy;
        JsonEffect(ApplyAll(k, copy, Apply), m, cut - |copy|);
        JsonLength(m);
      }
    }
  }

  lemma JsonLength(m: Meta)
    ensures |JsonWrites(m)| == 3
  {
  }

  lemma {:induction false} PutReady(k: Disk, cfg: Config, hash: Payload -> Digest, c: Payload, now: u64, cut: nat)
    requires Injective(hash) && Ready(k, hash)
    ensures Ready(ApplyAll(k, Prefix(PutWrites(k, cfg, hash, c, now), cut), Apply), hash)
  {
    hide ApplyAll, PutWrites, Ready, Injective, Prefix;
    PutEffect(k, cfg, hash, c, now, cut);
    if hash(c) in k.data {
      SameContent(k, hash, c);
    }
    StoredReady(k, cfg, hash, c, now, ApplyAll(k, Prefix(PutWrites(k, cfg, hash, c, now), cut), Apply));
  }

  lemma SameContent(k: Disk, hash: Payload -> Digest, c: Payload)
    requires Injective(hash) && Ready(k, hash) && hash(c) in k.data
    ensures k.data[hash(c)] == c
  {
  }

  /** The states of an interrupted add are ready: nothing visible, data only, or data with its record. */
  lemma StoredReady(k: Disk, cfg: Config, hash: Payload -> Digest, c: Payload, now: u64, l: Disk)
    requires Ready(k, hash) && (hash(c) in k.data ==> k.data[hash(c)] == c)
    requires var d := hash(c);
             var stored := if d in k.data then k.data else k.data[d := c];
             && (l.data == k.data || l.data == stored)
             && (l.meta == k.meta || (l.data == stored && l.meta == k.meta[d := Readable(NewMeta(cfg, d, |c|, now))]))
    ensures Ready(l, hash)
  {
  }

  lemma {:induction false} DeleteReady(k: Disk, hash: Payload -> Digest, d: Digest, cut: nat)
    requires Ready(k, hash)
    ensures Ready(ApplyAll(k, Prefix(DelWrites(d), cut), Apply), hash)
  {
    hide ApplyAll;
    ApplyTwo(k, DelMeta(d), DelData(d), Apply);
    ApplyOne(k, DelMeta(d), Apply);
    assert DelWrites(d)[..1] == [DelMeta(d)] && DelWrites(d)[..0] == [];
  }

  /** Where two contents share a digest, adding the second over the first keeps the store ready if
      and only if they have the same length. */
  lemma {:induction false} CollisionReadyIff(k: Disk, cfg: Config, hash: Payload -> Digest, c: Payload, now: u64)
    requires Ready(k, hash) && hash(c) in k.data
    ensures Ready(ApplyAll(k, PutWrites(k, cfg, hash, c, now), Apply), hash) <==> |k.data[hash(c)]| == |c|
  {
    hide ApplyAll, PutWrites;
    var ws := PutWrites(k, cfg, hash, c, now);
    PutEffect(k, cfg, hash, c, now, |ws|);
    assert Prefix(ws, |ws|) == ws;
    var l := ApplyAll(k, ws, Apply);
    assert hash(c) in l.meta && l.meta[hash(c)].meta.size == |c|;
  }

  // ---- lists of deletions ----

  lemma {:induction false} DelNone(k: Disk)
    ensures DelAll(k, []) == k && DelAllWrites([]) == []
  {
  }

  lemma {:induction false} DelSnoc(k: Disk, removed: seq<Digest>, d: Digest)
    ensures DelAll(k, removed + [d]) == Del(DelAll(k, removed), d)
    ensures DelAllWrites(removed + [d]) == DelAllWrites(removed) + DelWrites(d)
    decreases |removed|
  {
    hide DelWrites;
    if removed == [] {
      assert [d][1..] == [];
      assert removed + [d] == [d];
      assert DelAllWrites([d]) == DelWrites(d) + [];
    } else {
      DelSnoc(Del(k, removed[0]), removed[1..], d);
      assert (removed + [d])[1..] == removed[1..] + [d];
    }
  }

  lemma {:induction false} DelAllConcat(k: Disk, a: seq<Digest>, b: seq<Digest>)
    ensures DelAll(k, a + b) == DelAll(DelAll(k, a), b)
    ensures DelAllWrites(a + b) == DelAllWrites(a) + DelAllWrites(b)
    decreases |a|
  {
    hide DelWrites;
    if a == [] {
      assert a + b == b;
    } else {
      DelAllConcat(Del(k, a[0]), a[1..], b);
      assert (a + b)[1..] == a[1..] + b;
    }
  }

  /** A list of deletions is a list of writes like any other, so a stop may cut it anywhere. */
  lemma {:induction false} DelAllIsWrites(k: Disk, removed: seq<Digest>)
    ensures DelAll(k, removed) == ApplyAll(k, DelAllWrites(removed), Apply)
    decreases |removed|
  {
    hide ApplyAll, DelWrites;
    if removed == [] {
      ApplyOne(k, DelData([]), Apply);
    } else {
      DelEffect(k, removed[0]);
      DelAllIsWrites(Del(k, removed[0]), removed[1..]);
      ApplyAllConcat(k, DelWrites(removed[0]), DelAllWrites(removed[1..]), Apply);
    }
  }

  lemma {:induction false} DelReady(k: Disk, hash: Payload -> Digest, d: Digest)
    requires Ready(k, hash)
    ensures Ready(Del(k, d), hash)
  {
  }

  /** A list of deletions, stopped after any step, leaves a ready store ready. */
  lemma {:induction false} DelAllReady(k: Disk, hash: Payload -> Digest, removed: seq<Digest>, cut: nat)
    requires Ready(k, hash)
    ensures Ready(ApplyAll(k, Prefix(DelAllWrites(removed), cut), Apply), hash)
    ensures Ready(DelAll(k, removed), hash)
    decreases |removed|
  {
    hide ApplyAll, Ready, DelWrites;
    if removed == [] {
      ApplyNone(k, Apply);
    } else {
      var d, rest := removed[0], removed[1..];
      PrefixOfConcat(DelWrites(d), DelAllWrites(rest), cut);
      DeleteReady(k, hash, d, cut);
      DelReady(k, hash, d);
      DelEffect(k, d);
      if cut > |DelWrites(d)| {
        DelAllReady(Del(k, d), hash, rest, cut - |DelWrites(d)|);
        ApplyAllConcat(k, DelWrites(d), Prefix(DelAllWrites(rest), cut - |DelWrites(d)|), Apply);
      } else {
        DelAllReady(Del(k, d), hash, rest, 0);
      }
    }
  }
}
