/** The queue without the settling discipline: any client may ack or nack any id at any time.
    A job is lost exactly when it is acknowledged while it is pending. */
module QueueMisuse {
  import opened Bytes
  import opened QueueDisk
  import opened QueueSafety
  import opened Wrappers
  import opened Writes

  /** `due`: added, and not acknowledged other than while pending. `lost`: due when an acknowledgement
      took the payload away under the pending marker. */
  datatype Free = Free(disk: Disk, up: bool, due: map<u64, Job>, lost: set<u64>)

  const FRESH := Free(EMPTY_DISK, false, map[], {})

  /** An acknowledgement that meets its own id pending gets as far as removing the payload. */
  predicate Destroys(s: Free, st: Step, i: u64) {
    s.up && st.event == Ack(i) && st.cut >= 2 && i in s.due && Be64(i) in s.disk.pending
  }

  function FreeAfter(s: Free, st: Step): Free {
    if !s.up && !st.event.Open? then s
    else
      var ws := EventWrites(s.disk, st.event);
      var done := st.cut >= |ws|;
      var m := s.(disk := ApplyAll(s.disk, Prefix(ws, st.cut), Apply), up := done);
      match st.event
      case Add(job) => if done then m.(due := m.due[NextId(s.disk) := job]) else m
      case Ack(id) =>
        if Destroys(s, st, id) then m.(lost := m.lost + {id})
        else if st.cut >= 1 && Be64(id) !in s.disk.pending then m.(due := m.due - {id})
        else m
      case _ => m
  }

  function FreeRun(steps: seq<Step>): Free {
    if steps == [] then FRESH else FreeAfter(FreeRun(steps[..|steps| - 1]), steps[|steps| - 1])
  }

  ghost predicate FreeSound(s: Free) {
    && (forall k :: k in s.disk.pending || k in s.disk.inflight ==> |k| == 8)
    && (forall i :: i in s.due ==> i < NextId(s.disk))
    && (forall i :: i in s.lost ==> i < NextId(s.disk) && Be64(i) !in s.disk.jobs)
    && (forall i :: i in s.due && i !in s.lost ==> Stored(s.disk, i, s.due[i]))
  }

  lemma FreeAdd(s: Free, job: Job, cut: nat)
    requires FreeSound(s) && s.up && NextId(s.disk) < U64_MAX
    ensures FreeSound(FreeAfter(s, Step(Add(job), cut)))
    ensures NextId(FreeAfter(s, Step(Add(job), cut)).disk) <= NextId(s.disk) + 1
  {
    hide Be64, FromBe64, ApplyAll, FreeSound;
    var d, id := s.disk, NextId(s.disk);
    var k := Be64(id);
    var u, v, w := PutNext(Be64(SatInc(id))), PutJob(k, job), PutPending(k);
    PrefixThree(d, u, v, w, cut, Apply);
    KeyOf(id + 1, Be64(id + 1));
    assert NextId(Apply(d, u)) == id + 1;
    AddedFreeSound(s, FreeAfter(s, Step(Add(job), cut)), id, job);
  }

  lemma AddedFreeSound(s: Free, t: Free, id: u64, job: Job)
    requires FreeSound(s) && id == NextId(s.disk) && t.lost == s.lost && t.disk.inflight == s.disk.inflight
    requires t.disk.jobs == s.disk.jobs || t.disk.jobs == s.disk.jobs[Be64(id) := job]
    requires
      || (t.due == s.due && t.disk.pending == s.disk.pending && NextId(t.disk) == id && t.disk.jobs == s.disk.jobs)
      || (t.due == s.due && t.disk.pending == s.disk.pending && NextId(t.disk) == id + 1)
      || (t.due == s.due[id := job] && t.disk.pending == s.disk.pending + {Be64(id)} && NextId(t.disk) == id + 1
          && t.disk.jobs == s.disk.jobs[Be64(id) := job])
    ensures FreeSound(t)
  {
    hide Be64, FromBe64, NextId;
    KeysInjective();
    KeyOf(id, Be64(id));
  }

  /** Whatever part of a fetch is done, it adds no marker and takes none away that has a payload. */
  lemma {:induction false} FetchMoves(d: Disk, cut: nat)
    ensures var e := ApplyAll(d, Prefix(FetchWrites(d), cut), Apply);
            && e.next == d.next && e.jobs == d.jobs
            && (forall k :: k in e.pending || k in e.inflight ==> k in d.pending || k in d.inflight)
            && (forall k :: |k| == 8 && k in d.jobs && (k in d.pending || k in d.inflight) ==>
                  k in e.pending || k in e.inflight)
  {
    hide ApplyAll;
    if d.pending == {} {
      FetchNothing(d, cut);
    } else {
      hide Least;
      var k := Least(d.pending);
      if |k| != 8 {
        ApplyOne(d, DelPending(k), Apply);
        assert cut == 0 ==> Prefix(FetchWrites(d), cut) == [];
      } else {
        FetchMovesMarker(d, k, cut);
      }
    }
  }

  lemma {:induction false} FetchMovesMarker(d: Disk, k: Key, cut: nat)
    requires k in d.pending && k == Least(d.pending) && |k| == 8
    ensures var e := ApplyAll(d, Prefix(FetchWrites(d), cut), Apply);
            && e.next == d.next && e.jobs == d.jobs
            && (forall x :: x in e.pending || x in e.inflight ==> x in d.pending || x in d.inflight)
            && (forall x :: x in d.jobs && (x in d.pending || x in d.inflight) ==> x in e.pending || x in e.inflight)
  {
    hide ApplyAll, Least;
    var two, more := [PutInflight(k), DelPending(k)], [DelInflight(k), DelPending(k)];
    var ws := FetchWrites(d);
    PrefixTwo(d, PutInflight(k), DelPending(k), cut, Apply);
    if cut <= 2 || k in d.jobs {
      assert Prefix(ws, cut) == Prefix(two, cut);
    } else {
      assert ws == two + more;
      assert Prefix(ws, cut) == two + Prefix(more, cut - 2);
      assert Prefix(two, cut) == two;
      ApplyAllConcat(d, two, Prefix(more, cut - 2), Apply);
      PrefixTwo(ApplyAll(d, two, Apply), DelInflight(k), DelPending(k), cut - 2, Apply);
    }
  }

  lemma FreeFetch(s: Free, cut: nat)
    requires FreeSound(s) && s.up
    ensures FreeSound(FreeAfter(s, Step(Fetch, cut)))
    ensures NextId(FreeAfter(s, Step(Fetch, cut)).disk) == NextId(s.disk)
  {
    hide Be64, FromBe64, ApplyAll, FetchWrites, Prefix;
    KeysInjective();
    FetchMoves(s.disk, cut);
    EightBytes();
  }

  lemma EightBytes()
    ensures forall i :: |Be64(i)| == 8
  {
  }

  lemma FreeAck(s: Free, id: u64, cut: nat)
    requires FreeSound(s) && s.up
    ensures FreeSound(FreeAfter(s, Step(Ack(id), cut)))
    ensures NextId(FreeAfter(s, Step(Ack(id), cut)).disk) == NextId(s.disk)
  {
    hide Be64, FromBe64, ApplyAll, FreeSound, NextId;
    var k := Be64(id);
    PrefixTwo(s.disk, DelInflight(k), DelJob(k), cut, Apply);
    var t := FreeAfter(s, Step(Ack(id), cut));
    NextSame(s.disk, t.disk);
    AckedFreeSound(s, t, id);
  }

  lemma AckedFreeSound(s: Free, t: Free, id: u64)
    requires FreeSound(s) && t.disk.pending == s.disk.pending && NextId(t.disk) == NextId(s.disk)
    requires t.disk.inflight == s.disk.inflight || t.disk.inflight == s.disk.inflight - {Be64(id)}
    requires t.disk.jobs == s.disk.jobs || t.disk.jobs == s.disk.jobs - {Be64(id)}
    requires
      || (t.due == s.due && t.lost == s.lost + {id} && id in s.due && Be64(id) !in t.disk.jobs)
      || (t.due == s.due - {id} && t.lost == s.lost)
      || (t.due == s.due && t.lost == s.lost && (t.disk == s.disk || id !in s.due))
      || (t.due == s.due && t.lost == s.lost && t.disk.jobs == s.disk.jobs && Be64(id) in s.disk.pending)
    ensures FreeSound(t)
  {
    hide Be64, FromBe64, NextId;
    KeysInjective();
  }

  lemma FreeNack(s: Free, id: u64, cut: nat)
    requires FreeSound(s) && s.up
    ensures FreeSound(FreeAfter(s, Step(Nack(id), cut)))
    ensures NextId(FreeAfter(s, Step(Nack(id), cut)).disk) == NextId(s.disk)
  {
    hide Be64, FromBe64, ApplyAll;
    var k := Be64(id);
    KeyOf(id, k);
    PrefixTwo(s.disk, PutPending(k), DelInflight(k), cut, Apply);
  }

  lemma FreeOpen(s: Free, cut: nat)
    requires FreeSound(s)
    ensures FreeSound(FreeAfter(s, Step(Open, cut)))
    ensures NextId(FreeAfter(s, Step(Open, cut)).disk) == NextId(s.disk)
  {
    hide Be64, FromBe64, ApplyAll, RecoverWrites, Recoverable;
    RecoverEffect(s.disk, cut);
    var e := FreeAfter(s, Step(Open, cut)).disk;
    assert forall k :: k in e.pending || k in e.inflight <==> k in e.pending + e.inflight;
    assert forall k :: k in s.disk.pending || k in s.disk.inflight <==> k in s.disk.pending + s.disk.inflight;
  }

  lemma {:induction false} FreeRunSound(steps: seq<Step>)
    requires Adds(steps) < U64_MAX
    ensures FreeSound(FreeRun(steps)) && NextId(FreeRun(steps).disk) <= 1 + Adds(steps)
    decreases |steps|
  {
    if steps == [] {
      assert NextId(EMPTY_DISK) == 1;
    } else {
      hide FreeSound, FreeAfter;
      var s, st := FreeRun(steps[..|steps| - 1]), steps[|steps| - 1];
      FreeRunSound(steps[..|steps| - 1]);
      FreeDown(s, st);
      match st.event {
        case Add(job) => if s.up { FreeAdd(s, job, st.cut); }
        case Fetch => if s.up { FreeFetch(s, st.cut); }
        case Ack(id) => if s.up { FreeAck(s, id, st.cut); }
        case Nack(id) => if s.up { FreeNack(s, id, st.cut); }
        case Open => FreeOpen(s, st.cut);
      }
    }
  }

  lemma FreeDown(s: Free, st: Step)
    ensures !s.up && !st.event.Open? ==> FreeAfter(s, st) == s
  {
  }

  ghost predicate DestroyedAt(steps: seq<Step>, n: nat, i: u64)
    requires n < |steps|
  {
    Destroys(FreeRun(steps[..n]), steps[n], i)
  }

  lemma {:induction false} LostWasDestroyed(steps: seq<Step>, i: u64) returns (n: nat)
    requires i in FreeRun(steps).lost
    ensures n < |steps| && DestroyedAt(steps, n, i)
    decreases |steps|
  {
    NoStep();
    FreeRunLast(steps);
    hide FreeRun, FreeAfter, Destroys;
    n := |steps| - 1;
    LostStep(FreeRun(steps[..n]), steps[n], i);
    if i in FreeRun(steps[..n]).lost {
      var m := LostWasDestroyed(steps[..n], i);
      assert steps[..n][..m] == steps[..m];
      n := m;
    }
  }

  lemma {:induction false} DestroyedIsLost(steps: seq<Step>, n: nat, i: u64)
    requires n < |steps| && DestroyedAt(steps, n, i)
    ensures i in FreeRun(steps).lost
    decreases |steps|
  {
    FreeRunLast(steps);
    hide FreeRun, FreeAfter, Destroys;
    var last := |steps| - 1;
    LostStep(FreeRun(steps[..last]), steps[last], i);
    if n < last {
      assert steps[..last][..n] == steps[..n];
      DestroyedIsLost(steps[..last], n, i);
    }
  }

  lemma {:induction false} FreeRunLast(steps: seq<Step>)
    ensures steps != [] ==>
              FreeRun(steps) == FreeAfter(FreeRun(steps[..|steps| - 1]), steps[|steps| - 1])
  {
  }

  lemma LostStep(s: Free, st: Step, i: u64)
    ensures i in FreeAfter(s, st).lost <==> i in s.lost || Destroys(s, st, i)
  {
    hide ApplyAll, EventWrites, Be64;
  }

  /** Over every run of every client, stopped anywhere: a job that is due waits under its marker with its
      payload if and only if it was never acknowledged while pending. */
  lemma {:induction false} JobLostIff(steps: seq<Step>, i: u64)
    requires Adds(steps) < U64_MAX && i in FreeRun(steps).due
    ensures Stored(FreeRun(steps).disk, i, FreeRun(steps).due[i])
            <==> !exists n :: 0 <= n < |steps| && DestroyedAt(steps, n, i)
  {
    hide FreeRun, Be64, DestroyedAt;
    FreeRunSound(steps);
    if i in FreeRun(steps).lost {
      var _ := LostWasDestroyed(steps, i);
    }
    if n :| 0 <= n < |steps| && DestroyedAt(steps, n, i) {
      DestroyedIsLost(steps, n, i);
    }
  }

  /** A lost job is never delivered again. */
  lemma {:induction false} LostNeverDelivered(steps: seq<Step>, i: u64)
    requires Adds(steps) < U64_MAX && i in FreeRun(steps).lost
    ensures FetchResult(FreeRun(steps).disk).Some? ==> FetchResult(FreeRun(steps).disk).value.0 != i
  {
    hide FreeRun, Be64, FromBe64, Least;
    FreeRunSound(steps);
    KeysInjective();
  }

  lemma {:induction false} FreeRunSnoc(steps: seq<Step>, st: Step)
    ensures FreeRun(steps + [st]) == FreeAfter(FreeRun(steps), st)
  {
    assert (steps + [st])[..|steps|] == steps;
  }

  /** A nack that is followed by an ack of the same delivery, as happens to a closure that nacks under
      `start`, loses any due job in any state. */
  lemma {:induction false} NackThenAckLosesJob(steps: seq<Step>, id: u64)
    requires Adds(steps) < U64_MAX && FreeRun(steps).up && id in FreeRun(steps).due
    ensures var t := FreeRun(steps + [Step(Nack(id), 2)] + [Step(Ack(id), 2)]);
            && t.up && t.due == FreeRun(steps).due && id in t.lost
            && Be64(id) in t.disk.pending && Be64(id) !in t.disk.jobs
  {
    hide Be64, FromBe64, ApplyAll, FreeRun;
    var s := FreeRun(steps);
    var k := Be64(id);
    FreeRunSnoc(steps, Step(Nack(id), 2));
    FreeRunSnoc(steps + [Step(Nack(id), 2)], Step(Ack(id), 2));
    PrefixTwo(s.disk, PutPending(k), DelInflight(k), 2, Apply);
    var m := FreeAfter(s, Step(Nack(id), 2));
    PrefixTwo(m.disk, DelInflight(k), DelJob(k), 2, Apply);
  }

  /** The calls made under `start` for the only job, whose closure nacks: the job is gone. */
  lemma NackUnderStart(job: Job)
    ensures var calls := [Step(Open, 0)] + [Step(Add(job), 3)] + [Step(Fetch, 2)];
            var t := FreeRun(calls + [Step(Nack(1), 2)] + [Step(Ack(1), 2)]);
            && t.up && 1 in t.due && t.due[1] == job && !Stored(t.disk, 1, job)
            && FetchResult(t.disk) == None
  {
    hide Be64, FromBe64, ApplyAll, FreeRun, FreeAfter;
    var calls := [Step(Open, 0)] + [Step(Add(job), 3)] + [Step(Fetch, 2)];
    assert Adds([]) == 0;
    AddsSnoc([], Step(Open, 0));
    AddsSnoc([Step(Open, 0)], Step(Add(job), 3));
    AddsSnoc([Step(Open, 0)] + [Step(Add(job), 3)], Step(Fetch, 2));
    assert [] + [Step(Open, 0)] == [Step(Open, 0)];
    FirstJobFetched(job);
    NackThenAckLosesJob(calls, 1);
    var s := FreeRun(calls);
    FreeRunSnoc(calls, Step(Nack(1), 2));
    FreeRunSnoc(calls + [Step(Nack(1), 2)], Step(Ack(1), 2));
    OnlyMarker(s, 1);
  }

  lemma {:induction false} AddsSnoc(steps: seq<Step>, st: Step)
    ensures Adds(steps + [st]) == Adds(steps) + if st.event.Add? then 1 else 0
  {
    assert (steps + [st])[..|steps|] == steps;
  }

  lemma FirstJobFetched(job: Job)
    ensures FreeRun([Step(Open, 0)] + [Step(Add(job), 3)] + [Step(Fetch, 2)]) ==
            Free(Disk(Some(Be64(2)), {}, {Be64(1)}, map[Be64(1) := job]), true, map[1 := job], {})
  {
    hide Be64, FromBe64, ApplyAll, FreeRun;
    FreeRunSnoc([], Step(Open, 0));
    FreeRunSnoc([Step(Open, 0)], Step(Add(job), 3));
    FreeRunSnoc([Step(Open, 0)] + [Step(Add(job), 3)], Step(Fetch, 2));
    assert FreeRun([]) == FRESH by { NoStep(); }
    assert [] + [Step(Open, 0)] == [Step(Open, 0)];
    var k := Be64(1);
    var d := Disk(Some(Be64(2)), {k}, {}, map[k := job]);
    FirstSteps(job, k);
    assert FreeAfter(FRESH, Step(Open, 0)) == Free(EMPTY_DISK, true, map[], {});
    assert FreeAfter(Free(EMPTY_DISK, true, map[], {}), Step(Add(job), 3)) == Free(d, true, map[1 := job], {});
    KeyOf(1, k);
    assert Least({k}) == k;
    PrefixTwo(d, PutInflight(k), DelPending(k), 2, Apply);
    assert FetchWrites(d) == [PutInflight(k), DelPending(k)];
  }

  lemma FirstSteps(job: Job, k: Key)
    requires k == Be64(1)
    ensures RecoverWrites(EMPTY_DISK) == [] && ApplyAll(EMPTY_DISK, Prefix([], 0), Apply) == EMPTY_DISK
    ensures AddWrites(EMPTY_DISK, job) == [PutNext(Be64(2)), PutJob(k, job), PutPending(k)]
    ensures NextId(EMPTY_DISK) == 1
    ensures ApplyAll(EMPTY_DISK, Prefix(AddWrites(EMPTY_DISK, job), 3), Apply) ==
            Disk(Some(Be64(2)), {k}, {}, map[k := job])
  {
    hide Be64, FromBe64, ApplyAll;
    ApplyOne(EMPTY_DISK, DelPending([]), Apply);
    PrefixThree(EMPTY_DISK, PutNext(Be64(2)), PutJob(k, job), PutPending(k), 3, Apply);
    assert Recoverable(EMPTY_DISK) == [];
  }

  lemma NoStep()
    ensures FreeRun([]) == FRESH
  {
  }

  lemma OnlyMarker(s: Free, id: u64)
    requires s.up && s.disk.pending == {} && s.disk.inflight == {Be64(id)} && id in s.due
    ensures FetchResult(FreeAfter(FreeAfter(s, Step(Nack(id), 2)), Step(Ack(id), 2)).disk) == None
  {
    hide Be64, FromBe64, ApplyAll;
    var k := Be64(id);
    PrefixTwo(s.disk, PutPending(k), DelInflight(k), 2, Apply);
    var m := FreeAfter(s, Step(Nack(id), 2));
    PrefixTwo(m.disk, DelInflight(k), DelJob(k), 2, Apply);
    assert m.disk.pending == {k};
    var e := FreeAfter(m, Step(Ack(id), 2)).disk;
    assert e.pending == {k} && k !in e.jobs;
    assert Least(e.pending) == k;
    assert FetchResult(e) == None;
  }
}
