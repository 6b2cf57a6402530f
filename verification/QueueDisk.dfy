/** The job queue's trees and the ordered list of single-tree writes of each operation. */
module QueueDisk {
  import opened Bytes
  import opened Wrappers
  import opened Writes

  /** A serialised work item; the queue never looks inside. */
  type Job = seq<byte>

  /** `next` is the cell "next_id" of the meta tree; `pending` and `inflight` hold markers only. */
  datatype Disk = Disk(next: Option<seq<byte>>, pending: set<Key>, inflight: set<Key>, jobs: map<Key, Job>)

  datatype Write =
    | PutNext(value: seq<byte>)
    | PutJob(key: Key, job: Job)
    | DelJob(key: Key)
    | PutPending(key: Key)
    | DelPending(key: Key)
    | PutInflight(key: Key)
    | DelInflight(key: Key)

  const EMPTY_DISK := Disk(None, {}, {}, map[])

  function Apply(d: Disk, w: Write): Disk {
    match w
    case PutNext(v) => d.(next := Some(v))
    case PutJob(k, j) => d.(jobs := d.jobs[k := j])
    case DelJob(k) => d.(jobs := d.jobs - {k})
    case PutPending(k) => d.(pending := d.pending + {k})
    case DelPending(k) => d.(pending := d.pending - {k})
    case PutInflight(k) => d.(inflight := d.inflight + {k})
    case DelInflight(k) => d.(inflight := d.inflight - {k})
  }

  // ---- operations ----

  function BytesToU64(b: seq<byte>): Option<u64> {
    if |b| != 8 then None else Some(FromBe64(b))
  }

  function NextId(d: Disk): u64 {
    if d.next.Some? && BytesToU64(d.next.value).Some? then BytesToU64(d.next.value).value else 1
  }

  /** `saturating_add(1)`. */
  function SatInc(n: u64): u64 {
    if n == U64_MAX then n else n + 1
  }

  function AddWrites(d: Disk, job: Job): seq<Write> {
    var id := NextId(d);
    [PutNext(Be64(SatInc(id))), PutJob(Be64(id), job), PutPending(Be64(id))]
  }

  /** Pending to inflight, marker first; a marker without payload is dropped, a corrupt one removed. */
  function FetchWrites(d: Disk): seq<Write> {
    if d.pending == {} then []
    else
      var k := Least(d.pending);
      if |k| != 8 then [DelPending(k)]
      else [PutInflight(k), DelPending(k)] + if k in d.jobs then [] else [DelInflight(k), DelPending(k)]
  }

  function FetchResult(d: Disk): Option<(u64, Job)> {
    if d.pending == {} then None
    else
      var k := Least(d.pending);
      if |k| == 8 && k in d.jobs then Some((FromBe64(k), d.jobs[k])) else None
  }

  function AckWrites(id: u64): seq<Write> {
    [DelInflight(Be64(id)), DelJob(Be64(id))]
  }

  function NackWrites(id: u64): seq<Write> {
    [PutPending(Be64(id)), DelInflight(Be64(id))]
  }

  /** The inflight markers that recovery moves, in tree order; others are skipped as corrupt. */
  function Recoverable(d: Disk): seq<Key> {
    Ascending(set k | k in d.inflight && |k| == 8)
  }

  function MoveWrites(keys: seq<Key>): seq<Write> {
    if keys == [] then [] else [PutPending(keys[0]), DelInflight(keys[0])] + MoveWrites(keys[1..])
  }

  function RecoverWrites(d: Disk): seq<Write> {
    MoveWrites(Recoverable(d))
  }

  // ---- the queue and its clients over time ----

  datatype Event = Add(job: Job) | Fetch | Ack(id: u64) | Nack(id: u64) | Open

  /** An event of which the first `cut` writes reach the disk; fewer than all means the process stops. */
  datatype Step = Step(event: Event, cut: nat)

  /** The disk, the running process, and what has happened so far.
      `held`: delivered in this process and not yet settled. `live`: added and not yet acknowledged.
      `settled`: acknowledged. `delivered`, `nacked`, `recovered`: how often per id. */
  datatype Sys = Sys(disk: Disk, up: bool, held: set<u64>, live: map<u64, Job>, settled: set<u64>,
                     delivered: multiset<u64>, nacked: multiset<u64>, recovered: multiset<u64>)

  const START := Sys(EMPTY_DISK, false, {}, map[], {}, multiset{}, multiset{}, multiset{})

  function EventWrites(d: Disk, e: Event): seq<Write> {
    match e
    case Add(job) => AddWrites(d, job)
    case Fetch => FetchWrites(d)
    case Ack(id) => AckWrites(id)
    case Nack(id) => NackWrites(id)
    case Open => RecoverWrites(d)
  }

  /** A delivery is settled at most once, by the process that received it. */
  predicate Enabled(s: Sys, e: Event) {
    match e
    case Open => true
    case Ack(id) => s.up && id in s.held
    case Nack(id) => s.up && id in s.held
    case _ => s.up
  }

  /** The ids whose markers an opening has put back to pending. */
  function PutBack(d: Disk, e: Disk): set<u64> {
    set k | k in e.pending && k !in d.pending && |k| == 8 :: FromBe64(k)
  }

  /** The process comes to a stop: deliveries in hand are forgotten. */
  function Stop(s: Sys): Sys {
    s.(up := false, held := {})
  }

  function After(s: Sys, st: Step): Sys {
    if !Enabled(s, st.event) then s
    else
      var ws := EventWrites(s.disk, st.event);
      var done := st.cut >= |ws|;
      var m := s.(disk := ApplyAll(s.disk, Prefix(ws, st.cut), Apply));
      match st.event
      case Add(job) => if done then m.(live := m.live[NextId(s.disk) := job]) else Stop(m)
      case Fetch =>
        if !done then Stop(m)
        else if FetchResult(s.disk).None? then m
        else
          var id := FetchResult(s.disk).value.0;
          m.(held := m.held + {id}, delivered := m.delivered + multiset{id})
      case Ack(id) =>
        var n := if st.cut >= 1 then m.(live := m.live - {id}, settled := m.settled + {id}) else m;
        if done then n.(held := n.held - {id}) else Stop(n)
      case Nack(id) =>
        var n := if st.cut >= 1 then m.(nacked := m.nacked + multiset{id}) else m;
        if done then n.(held := n.held - {id}) else Stop(n)
      case Open => m.(recovered := m.recovered + multiset(PutBack(s.disk, m.disk)), held := {}, up := done)
  }

  function Run(s: Sys, steps: seq<Step>): Sys {
    if steps == [] then s else After(Run(s, steps[..|steps| - 1]), steps[|steps| - 1])
  }
}
