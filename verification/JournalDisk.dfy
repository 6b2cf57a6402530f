/** The journal's four trees and the ordered list of single-tree writes that each operation issues.
    A stop between two writes leaves the disk with a prefix of such a list. */
module JournalDisk {
  import opened Bytes
  import opened Trees
  import Utf8
  import opened Wrappers
  import opened Writes

  /** `acked` and `completed` hold empty values, so they are key sets. */
  datatype Disk = Disk(pending: Tree, seqs: Tree, acked: set<Key>, completed: set<Key>)

  datatype Write =
    | PutPending(key: Key, value: Payload)
    | DelPending(key: Key)
    | PutSeq(key: Key, value: Payload)
    | PutAcked(key: Key)
    | DelAcked(key: Key)
    | PutCompleted(key: Key)
    | DelCompleted(key: Key)

  const EMPTY_DISK := Disk(map[], map[], {}, {})
  const COLON: byte := 0x3A
  /** "__total_bytes": the byte counter lives among the pending entries. */
  const TOTAL_KEY: Key := [0x5F, 0x5F, 0x74, 0x6F, 0x74, 0x61, 0x6C, 0x5F, 0x62, 0x79, 0x74, 0x65, 0x73]
  /** "__": iteration skips every key that starts like this. */
  const HIDDEN_PREFIX: Key := [0x5F, 0x5F]

  function Apply(d: Disk, w: Write): Disk {
    match w
    case PutPending(k, v) => d.(pending := d.pending[k := v])
    case DelPending(k) => d.(pending := d.pending - {k})
    case PutSeq(k, v) => d.(seqs := d.seqs[k := v])
    case PutAcked(k) => d.(acked := d.acked + {k})
    case DelAcked(k) => d.(acked := d.acked - {k})
    case PutCompleted(k) => d.(completed := d.completed + {k})
    case DelCompleted(k) => d.(completed := d.completed - {k})
  }

  // ---- keys ----

  function PendingKey(id: Key, s: u64): Key {
    id + [COLON] + Be64(s)
  }

  function CyclePrefix(id: Key): Key {
    id + [COLON]
  }

  predicate IsEntryKey(k: Key) {
    |k| >= 9 && k[|k| - 9] == COLON
  }

  function KeyId(k: Key): Key
    requires IsEntryKey(k)
  {
    k[..|k| - 9]
  }

  function KeySeq(k: Key): u64
    requires IsEntryKey(k)
  {
    FromBe64(k[|k| - 8..])
  }

  predicate Visible(k: Key) {
    !(HIDDEN_PREFIX <= k)
  }

  /** Position of the last colon, `rposition` in the source. */
  function LastColon(k: Key): (c: int)
    ensures -1 <= c < |k|
    ensures c >= 0 ==> k[c] == COLON
    ensures forall i :: c < i < |k| ==> k[i] != COLON
  {
    if k == [] then -1
    else if k[|k| - 1] == COLON then |k| - 1
    else LastColon(k[..|k| - 1])
  }

  // ---- counters ----

  /** A counter cell: the first eight bytes as a big-endian number, 0 when absent or short. */
  function Stored(t: Tree, k: Key): u64 {
    if k in t && |t[k]| >= 8 then FromBe64(t[k][..8]) else 0
  }

  function Next(d: Disk, id: Key): u64 {
    Stored(d.seqs, id)
  }

  function Recorded(d: Disk): u64 {
    Stored(d.pending, TOTAL_KEY)
  }

  type i64 = x: int | -I64_LIMIT <= x < I64_LIMIT

  /** Reads a number of twice the i64 range back into it, as two's complement does. */
  function Wrap(n: int): i64
    requires -U64_LIMIT <= n < U64_LIMIT
  {
    if n >= I64_LIMIT then n - U64_LIMIT else if n < -I64_LIMIT then n + U64_LIMIT else n
  }

  /** The counter after `add_total`: 64-bit signed addition, clamped at zero. */
  function NewTotal(recorded: u64, delta: i64): u64 {
    var t := Wrap(Wrap(recorded) + delta);
    if t < 0 then 0 else t
  }

  function AddTotal(d: Disk, delta: i64): Write {
    PutPending(TOTAL_KEY, Be64(NewTotal(Recorded(d), delta)))
  }

  /** `wrapping_add(1)`. */
  function Succ(s: u64): u64 {
    if s == U64_MAX then 0 else s + 1
  }

  // ---- operations ----

  function AppendWrites(d: Disk, id: Key, payload: Payload): seq<Write> {
    var s := Next(d, id);
    (if id in d.acked then [DelAcked(id)] else [])
    + [PutSeq(id, Be64(Succ(s))),
       PutPending(PendingKey(id, s), payload),
       AddTotal(d, |payload|)]
  }

  function Scan(t: Tree, prefix: Key): seq<Key> {
    Ascending(set k | k in t && prefix <= k)
  }

  /** Freeing one entry: the counter is lowered first, then the entry goes. */
  function FreeWrites(d: Disk, k: Key): seq<Write> {
    (if k in d.pending then [AddTotal(d, -|d.pending[k]|)] else []) + [DelPending(k)]
  }

  function DropWrites(d: Disk, keys: seq<Key>): seq<Write>
    decreases |keys|
  {
    if keys == [] then []
    else FreeWrites(d, keys[0]) + DropWrites(ApplyAll(d, FreeWrites(d, keys[0]), Apply), keys[1..])
  }

  function AckInnerWrites(d: Disk, id: Key): seq<Write> {
    DropWrites(d, Scan(d.pending, CyclePrefix(id))) + [PutAcked(id), DelCompleted(id)]
  }

  function AckWrites(d: Disk, id: Key): seq<Write> {
    if id in d.acked then [] else AckInnerWrites(d, id)
  }

  function VisibleKeys(d: Disk): set<Key> {
    set k | k in d.pending && Visible(k)
  }

  /** The id that eviction picks: decoded from the smallest visible key. */
  function OldestId(d: Disk): Option<Key> {
    var vs := VisibleKeys(d);
    if vs == {} then None
    else
      var k := Least(vs);
      var c := LastColon(k);
      if c < 0 then None else Some(Utf8.Lossy(k[..c]))
  }

  predicate OverBudget(d: Disk, max: u64) {
    max > 0 && Recorded(d) > max && OldestId(d).Some?
  }

  function EvictRoundWrites(d: Disk, max: u64): seq<Write> {
    if OverBudget(d, max) then AckInnerWrites(d, OldestId(d).value) else []
  }

  // ---- runs ----

  /** What the minion does to its journal; `EvictRound` is one turn of the eviction loop. */
  datatype Event =
    | Append(id: Key, payload: Payload)
    | Ack(id: Key)
    | EvictRound
    | Complete(id: Key)

  function EventWrites(d: Disk, max: u64, e: Event): seq<Write> {
    match e
    case Append(id, p) => AppendWrites(d, id, p)
    case Ack(id) => AckWrites(d, id)
    case EvictRound => EvictRoundWrites(d, max)
    case Complete(id) => [PutCompleted(id)]
  }

  /** An event of which only the first `cut` writes reach the disk before the process stops. */
  datatype Step = Step(event: Event, cut: nat)

  function After(d: Disk, max: u64, s: Step): Disk {
    ApplyAll(d, Prefix(EventWrites(d, max, s.event), s.cut), Apply)
  }

  function Run(d: Disk, max: u64, steps: seq<Step>): Disk {
    if steps == [] then d else After(Run(d, max, steps[..|steps| - 1]), max, steps[|steps| - 1])
  }

  /** A run in which every operation finishes. */
  function WholeRun(d: Disk, max: u64, events: seq<Event>): Disk {
    if events == [] then d
    else
      var m := WholeRun(d, max, events[..|events| - 1]);
      ApplyAll(m, EventWrites(m, max, events[|events| - 1]), Apply)
  }
}
