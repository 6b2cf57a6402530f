/** The datastore's files and the ordered file-system steps of each operation.
    Files are named by digest: data (`.bin`), metadata (`.meta.json`) and their temporary twins. */
module StoreDisk {
  import opened Bytes
  import opened Trees
  import opened Wrappers

  type Digest = Key

  datatype Meta = Meta(sha: Digest, size: u64, created: u64, expires: Option<u64>)

  /** What a metadata file holds: a record, or something that does not parse. */
  datatype MetaFile = Readable(meta: Meta) | Garbage

  datatype Disk = Disk(data: Tree, meta: map<Digest, MetaFile>, dataTmp: Tree, metaTmp: map<Digest, MetaFile>)

  datatype Write =
    | DataTmp(d: Digest, content: Payload)
    | DataRename(d: Digest)
    | MetaTmp(d: Digest, file: MetaFile)
    | MetaRename(d: Digest)
    | DelMeta(d: Digest)
    | DelData(d: Digest)

  datatype Config = Config(expiration: Option<u64>, maxItem: Option<u64>, maxTotal: Option<u64>)

  const EMPTY_DISK := Disk(map[], map[], map[], map[])

  function Apply(k: Disk, w: Write): Disk {
    match w
    case DataTmp(d, c) => k.(dataTmp := k.dataTmp[d := c])
    case DataRename(d) =>
      if d in k.dataTmp then k.(data := k.data[d := k.dataTmp[d]], dataTmp := k.dataTmp - {d}) else k
    case MetaTmp(d, f) => k.(metaTmp := k.metaTmp[d := f])
    case MetaRename(d) =>
      if d in k.metaTmp then k.(meta := k.meta[d := k.metaTmp[d]], metaTmp := k.metaTmp - {d}) else k
    case DelMeta(d) => k.(meta := k.meta - {d})
    case DelData(d) => k.(data := k.data - {d})
  }

  // ---- operations ----

  /** Copying streams into the temporary file, so it passes through every shorter content. */
  function StreamWrites(d: Digest, c: Payload, upTo: nat): seq<Write>
    requires upTo <= |c|
  {
    (if upTo == 0 then [] else StreamWrites(d, c, upTo - 1)) + [DataTmp(d, c[..upTo])]
  }

  function CopyWrites(d: Digest, c: Payload): seq<Write> {
    StreamWrites(d, c, |c|) + [DataRename(d)]
  }

  /** The record is written to a temporary file, unreadable at first, and then renamed. */
  function JsonWrites(m: Meta): seq<Write> {
    [MetaTmp(m.sha, Garbage), MetaTmp(m.sha, Readable(m)), MetaRename(m.sha)]
  }

  function SatAdd(a: int, b: int): u64
    requires 0 <= a && 0 <= b
  {
    if a + b > U64_MAX then U64_MAX else a + b
  }

  function NewMeta(cfg: Config, d: Digest, size: u64, now: u64): Meta {
    Meta(d, size, now, match cfg.expiration case None => None case Some(secs) => Some(SatAdd(now, secs)))
  }

  /** Stored content is hashed again before it is trusted. */
  predicate Corrupt(k: Disk, hash: Payload -> Digest, d: Digest) {
    d in k.data && hash(k.data[d]) != d
  }

  /** Data first, metadata last; nothing when the stored content does not match its name. */
  function PutWrites(k: Disk, cfg: Config, hash: Payload -> Digest, c: Payload, now: u64): seq<Write> {
    var d := hash(c);
    var m := NewMeta(cfg, d, |c|, now);
    if Corrupt(k, hash, d) then []
    else (if d in k.data then [] else CopyWrites(d, c)) + JsonWrites(m)
  }

  /** Metadata first, data last. */
  function DelWrites(d: Digest): seq<Write> {
    [DelMeta(d), DelData(d)]
  }

  function Del(k: Disk, d: Digest): Disk {
    k.(meta := k.meta - {d}, data := k.data - {d})
  }

  function DelAll(k: Disk, removed: seq<Digest>): Disk
    decreases |removed|
  {
    if removed == [] then k else DelAll(Del(k, removed[0]), removed[1..])
  }

  function DelAllWrites(removed: seq<Digest>): seq<Write> {
    if removed == [] then [] else DelWrites(removed[0]) + DelAllWrites(removed[1..])
  }
}
