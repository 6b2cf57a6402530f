/** No job is lost, none is delivered too often: over every run of the queue, with a stop after any write. */
module QueueSafety {
  import opened Bytes
  import opened QueueDisk
  import opened Wrappers
  import opened Writes

  // ---- the invariant ----

  ghost predicate Marks(d: Disk, live: map<u64, Job>) {
    && (forall k :: k in d.pending || k in d.inflight ==> |k| == 8 && FromBe64(k) in live)
    && (forall i :: i in live ==> Be64(i) in d.pending || Be64(i) in d.inflight)
  }

  ghost predicate Payloads(d: Disk, live: map<u64, Job>) {
    forall i :: i in live ==> Be64(i) in d.jobs && d.jobs[Be64(i)] == live[i]
  }

  ghost predicate Known(s: Sys, i: u64) {
    i in s.live || i in s.settled || i in s.delivered || i in s.nacked
  }

  ghost predicate IdsBelowNext(s: Sys) {
    forall i: u64 :: Known(s, i) ==> i < NextId(s.disk)
  }

  /** While the process runs, the inflight markers are exactly the deliveries in hand. */
  ghost predicate HeldIsInflight(s: Sys) {
    && (!s.up ==> s.held == {})
    && (s.up ==> s.disk.pending !! s.disk.inflight)
    && (s.up ==> forall k :: k in s.disk.inflight <==> |k| == 8 && FromBe64(k) in s.held)
  }

  ghost predicate DeliveryBound(s: Sys, i: u64) {
    s.delivered[i] + (if Be64(i) in s.disk.pending then 1 else 0) <= 1 + s.nacked[i] + s.recovered[i]
  }

  ghost predicate Sound(s: Sys) {
    && Marks(s.disk, s.live)
    && Payloads(s.disk, s.live)
    && IdsBelowNext(s)
    && s.live.Keys !! s.settled
    && HeldIsInflight(s)
  }

  ghost predicate Inv(s: Sys) {
    Sound(s) && forall i :: DeliveryBound(s, i)
  }

  lemma KeyOf(i: u64, k: Key)
    requires |k| == 8
    ensures Be64(i) == k <==> i == FromBe64(k)
    ensures |Be64(i)| == 8 && FromBe64(Be64(i)) == i
  {
    Be64Bijective(i, k);
  }

  lemma KeysInjective()
    ensures forall i: u64, j: u64 :: Be64(i) == Be64(j) ==> i == j
    ensures forall i: u64 :: FromBe64(Be64(i)) == i
    ensures forall k: Key :: |k| == 8 ==> Be64(FromBe64(k)) == k
  {
    forall i: u64, j: u64 | Be64(i) == Be64(j)
      ensures i == j
    {
      KeyOf(i, Be64(j));
      KeyOf(j, Be64(j));
    }
    forall i: u64
      ensures FromBe64(Be64(i)) == i
    {
      KeyOf(i, Be64(i));
    }
    forall k: Key | |k| == 8
      ensures Be64(FromBe64(k)) == k
    {
      KeyOf(FromBe64(k), k);
    }
  }

  // ---- each operation, stopped after any write ----

  /** An interrupted add leaves at most an unused number and a payload without marker. */
  lemma AddStoppedSound(s: Sys, t: Sys, id: u64, job: Job)
    requires Sound(s) && id == NextId(s.disk)
    requires t == Stop(s).(disk := t.disk) && t.disk.pending == s.disk.pending && t.disk.inflight == s.disk.inflight
    requires t.disk.jobs == s.disk.jobs || t.disk.jobs == s.disk.jobs[Be64(id) := job]
    requires NextId(s.disk) <= NextId(t.disk)
    ensures Sound(t)
  {
    hide Be64, FromBe64, NextId;
    KeysInjective();
    assert !Known(s, id);
    assert forall i :: Known(t, i) ==> Known(s, i);
  }

  lemma AddDoneSound(s: Sys, t: Sys, id: u64, job: Job)
    requires Sound(s) && id == NextId(s.disk)
    requires t == s.(disk := t.disk, live := s.live[id := job])
    requires t.disk.pending == s.disk.pending + {Be64(id)} && t.disk.inflight == s.disk.inflight
    requires t.disk.jobs == s.disk.jobs[Be64(id) := job] && NextId(t.disk) == id + 1
    ensures Sound(t)
  {
    hide Be64, FromBe64, NextId;
    KeysInjective();
    assert !Known(s, id);
    assert Be64(id) !in s.disk.inflight;
    assert forall i :: Known(t, i) ==> Known(s, i) || i == id;
  }

  lemma AddSound(s: Sys, job: Job, cut: nat)
    requires Sound(s) && s.up && NextId(s.disk) < U64_MAX
    ensures Sound(After(s, Step(Add(job), cut)))
    ensures NextId(After(s, Step(Add(job), cut)).disk) <= NextId(s.disk) + 1
  {
    hide Be64, FromBe64, ApplyAll, Sound;
    var d, id := s.disk, NextId(s.disk);
    var k := Be64(id);
    var u, v, w := PutNext(Be64(SatInc(id))), PutJob(k, job), PutPending(k);
    PrefixThree(d, u, v, w, cut, Apply);
    KeyOf(id + 1, Be64(id + 1));
    assert NextId(Apply(d, u)) == id + 1;
    var t := After(s, Step(Add(job), cut));
    if cut < 3 {
      AddStoppedSound(s, t, id, job);
    } else {
      AddDoneSound(s, t, id, job);
    }
  }

  /** The marker that a fetch takes belongs to an unacknowledged job. */
  lemma FetchShape(s: Sys)
    requires Sound(s) && s.up && s.disk.pending != {}
    ensures var k := Least(s.disk.pending);
            && |k| == 8 && FromBe64(k) in s.live && FromBe64(k) !in s.held
            && k in s.disk.pending && k !in s.disk.inflight
            && FetchWrites(s.disk) == [PutInflight(k), DelPending(k)]
            && FetchResult(s.disk) == Some((FromBe64(k), s.live[FromBe64(k)]))
  {
    hide Be64, FromBe64;
    KeysInjective();
  }

  lemma {:induction false} FetchNothing(d: Disk, cut: nat)
    requires d.pending == {}
    ensures FetchWrites(d) == [] && FetchResult(d) == None && ApplyAll(d, Prefix([], cut), Apply) == d
  {
  }

  /** Moving markers between pending and inflight keeps every job accounted for. */
  lemma MovedMarkersSound(s: Sys, t: Sys)
    requires Sound(s) && HeldIsInflight(t)
    requires t.live == s.live && t.settled == s.settled && t.disk.jobs == s.disk.jobs && t.disk.next == s.disk.next
    requires t.disk.pending + t.disk.inflight == s.disk.pending + s.disk.inflight
    requires forall i :: i in t.delivered || i in t.nacked ==> Known(s, i)
    ensures Sound(t)
  {
    hide Be64, FromBe64, HeldIsInflight;
    assert forall k :: k in t.disk.pending || k in t.disk.inflight <==> k in t.disk.pending + t.disk.inflight;
    assert forall k :: k in s.disk.pending || k in s.disk.inflight <==> k in s.disk.pending + s.disk.inflight;
    assert forall i :: Known(t, i) ==> Known(s, i);
  }

  lemma FetchSound(s: Sys, cut: nat)
    requires Sound(s) && s.up
    ensures Sound(After(s, Step(Fetch, cut)))
    ensures NextId(After(s, Step(Fetch, cut)).disk) == NextId(s.disk)
  {
    hide Be64, FromBe64, ApplyAll, FetchWrites, FetchResult, Marks, Payloads, IdsBelowNext;
    KeysInjective();
    var d := s.disk;
    if d.pending == {} {
      FetchNothing(d, cut);
    } else {
      var k := Least(d.pending);
      FetchShape(s);
      PrefixTwo(d, PutInflight(k), DelPending(k), cut, Apply);
      var t := After(s, Step(Fetch, cut));
      assert t.disk.pending + t.disk.inflight == d.pending + d.inflight;
      assert HeldIsInflight(t);
      MovedMarkersSound(s, t);
    }
  }

  /** An acknowledgement takes effect with its first write; the payload may outlive it. */
  lemma SettledSound(s: Sys, t: Sys, id: u64)
    requires Sound(s) && s.up && id in s.held
    requires t.live == s.live - {id} && t.settled == s.settled + {id}
    requires t.delivered == s.delivered && t.nacked == s.nacked
    requires t.disk.next == s.disk.next && t.disk.pending == s.disk.pending
    requires t.disk.inflight == s.disk.inflight - {Be64(id)}
    requires t.disk.jobs == s.disk.jobs || t.disk.jobs == s.disk.jobs - {Be64(id)}
    requires if t.up then t.held == s.held - {id} else t.held == {}
    ensures Sound(t)
  {
    hide Be64, FromBe64, NextId;
    KeysInjective();
    assert Be64(id) in s.disk.inflight && id in s.live && Be64(id) !in s.disk.pending;
    assert NextId(t.disk) == NextId(s.disk) by { NextSame(s.disk, t.disk); }
    assert forall i :: Known(t, i) ==> Known(s, i);
  }

  lemma NextSame(d: Disk, e: Disk)
    requires d.next == e.next
    ensures NextId(d) == NextId(e)
  {
  }

  lemma AckSound(s: Sys, id: u64, cut: nat)
    requires Sound(s) && s.up && id in s.held
    ensures Sound(After(s, Step(Ack(id), cut)))
    ensures NextId(After(s, Step(Ack(id), cut)).disk) == NextId(s.disk)
  {
    var k := Be64(id);
    hide Be64, FromBe64, ApplyAll, Marks, Payloads, IdsBelowNext;
    PrefixTwo(s.disk, DelInflight(k), DelJob(k), cut, Apply);
    var t := After(s, Step(Ack(id), cut));
    if cut == 0 {
      MovedMarkersSound(s, t);
    } else {
      SettledSound(s, t, id);
    }
  }

  lemma NackSound(s: Sys, id: u64, cut: nat)
    requires Sound(s) && s.up && id in s.held
    ensures Sound(After(s, Step(Nack(id), cut)))
    ensures NextId(After(s, Step(Nack(id), cut)).disk) == NextId(s.disk)
  {
    hide Be64, FromBe64, ApplyAll, Payloads, IdsBelowNext;
    KeysInjective();
    var k := Be64(id);
    PrefixTwo(s.disk, PutPending(k), DelInflight(k), cut, Apply);
    var t := After(s, Step(Nack(id), cut));
    assert k in s.disk.inflight && id in s.live;
    assert t.disk.pending + t.disk.inflight == s.disk.pending + s.disk.inflight;
    assert HeldIsInflight(t);
    MovedMarkersSound(s, t);
  }

  ghost predicate Distinct(keys: seq<Key>) {
    forall i, j :: 0 <= i < j < |keys| ==> keys[i] != keys[j]
  }

  /** What any part of the recovery does: markers only move from inflight to pending. */
  ghost predicate Moved(d: Disk, e: Disk, keys: seq<Key>) {
    && e.next == d.next && e.jobs == d.jobs
    && d.pending <= e.pending && e.inflight <= d.inflight
    && e.pending + e.inflight == d.pending + d.inflight
    && (forall k :: k in d.inflight && k !in keys ==> k in e.inflight)
  }

  lemma {:induction false} MoveEffect(d: Disk, keys: seq<Key>, cut: nat)
    requires Distinct(keys) && forall i :: 0 <= i < |keys| ==> keys[i] in d.inflight
    ensures var e := ApplyAll(d, Prefix(MoveWrites(keys), cut), Apply);
            && Moved(d, e, keys)
            && (cut >= |MoveWrites(keys)| ==> forall k :: k in keys ==> k in e.pending && k !in e.inflight)
    decreases |keys|
  {
    if keys != [] {
      hide ApplyAll;
      var k := keys[0];
      var two := [PutPending(k), DelInflight(k)];
      var rest := MoveWrites(keys[1..]);
      var d2 := Apply(Apply(d, PutPending(k)), DelInflight(k));
      assert MoveWrites(keys) == two + rest;
      if cut < 2 {
        assert Prefix(MoveWrites(keys), cut) == Prefix(two, cut);
        PrefixTwo(d, PutPending(k), DelInflight(k), cut, Apply);
      } else {
        assert Prefix(MoveWrites(keys), cut) == two + Prefix(rest, cut - 2);
        ApplyAllConcat(d, two, Prefix(rest, cut - 2), Apply);
        ApplyTwo(d, PutPending(k), DelInflight(k), Apply);
        MoveEffect(d2, keys[1..], cut - 2);
        assert forall x :: x in keys <==> x == k || x in keys[1..];
      }
    } else {
      assert Prefix(MoveWrites(keys), cut) == [];
    }
  }

  lemma {:induction false} RecoverEffect(d: Disk, cut: nat)
    ensures var e := ApplyAll(d, Prefix(RecoverWrites(d), cut), Apply);
            && Moved(d, e, Recoverable(d))
            && (cut >= |RecoverWrites(d)| ==> e.inflight == set k | k in d.inflight && |k| != 8)
  {
    hide ApplyAll, MoveWrites;
    var keys := Recoverable(d);
    forall i, j | 0 <= i < j < |keys|
      ensures keys[i] != keys[j]
    {
      LtIrreflexive(keys[i]);
    }
    assert forall i :: 0 <= i < |keys| ==> keys[i] in keys;
    MoveEffect(d, keys, cut);
  }

  lemma OpenSound(s: Sys, cut: nat)
    requires Sound(s)
    ensures Sound(After(s, Step(Open, cut)))
    ensures NextId(After(s, Step(Open, cut)).disk) == NextId(s.disk)
  {
    hide Be64, FromBe64, ApplyAll, RecoverWrites, Recoverable;
    RecoverEffect(s.disk, cut);
    var t := After(s, Step(Open, cut));
    assert forall k :: k in s.disk.inflight ==> |k| == 8;
    assert HeldIsInflight(t);
    MovedMarkersSound(s, t);
  }

  // ---- the delivery bound of one id ----

  /** A delivery uses up the pending marker; only a nack or a recovery puts one back. */
  lemma AddBound(s: Sys, job: Job, cut: nat, i: u64)
    requires Sound(s) && s.up && DeliveryBound(s, i)
    ensures DeliveryBound(After(s, Step(Add(job), cut)), i)
  {
    hide Be64, FromBe64, ApplyAll;
    KeysInjective();
    var id := NextId(s.disk);
    var k := Be64(id);
    PrefixThree(s.disk, PutNext(Be64(SatInc(id))), PutJob(k, job), PutPending(k), cut, Apply);
    assert !Known(s, id);
  }

  lemma FetchBound(s: Sys, cut: nat, i: u64)
    requires Sound(s) && s.up && DeliveryBound(s, i)
    ensures DeliveryBound(After(s, Step(Fetch, cut)), i)
  {
    hide Be64, FromBe64, ApplyAll, FetchWrites, FetchResult, Sound;
    KeysInjective();
    if s.disk.pending == {} {
      FetchNothing(s.disk, cut);
    } else {
      var k := Least(s.disk.pending);
      FetchShape(s);
      PrefixTwo(s.disk, PutInflight(k), DelPending(k), cut, Apply);
    }
  }

  lemma SettleBound(s: Sys, id: u64, cut: nat, i: u64)
    requires DeliveryBound(s, i)
    ensures DeliveryBound(After(s, Step(Ack(id), cut)), i)
    ensures DeliveryBound(After(s, Step(Nack(id), cut)), i)
  {
    hide Be64, FromBe64, ApplyAll;
    KeysInjective();
    var k := Be64(id);
    PrefixTwo(s.disk, DelInflight(k), DelJob(k), cut, Apply);
    PrefixTwo(s.disk, PutPending(k), DelInflight(k), cut, Apply);
  }

  lemma OpenBound(s: Sys, cut: nat, i: u64)
    requires DeliveryBound(s, i)
    ensures DeliveryBound(After(s, Step(Open, cut)), i)
  {
    hide Be64, FromBe64, ApplyAll, RecoverWrites;
    KeysInjective();
    var t := After(s, Step(Open, cut));
    var back := PutBack(s.disk, t.disk);
    assert t.recovered == s.recovered + multiset(back);
    if Be64(i) in t.disk.pending && Be64(i) !in s.disk.pending {
      KeyOf(i, Be64(i));
      assert i in back;
    }
  }

  lemma StepBound(s: Sys, st: Step, i: u64)
    requires Sound(s) && DeliveryBound(s, i)
    ensures DeliveryBound(After(s, st), i)
  {
    hide DeliveryBound, Sound;
    match st.event {
      case Add(job) => if s.up { AddBound(s, job, st.cut, i); }
      case Fetch => if s.up { FetchBound(s, st.cut, i); }
      case Ack(id) => SettleBound(s, id, st.cut, i);
      case Nack(id) => SettleBound(s, id, st.cut, i);
      case Open => OpenBound(s, st.cut, i);
    }
  }

  // ---- runs ----

  ghost function Adds(steps: seq<Step>): nat {
    if steps == [] then 0 else Adds(steps[..|steps| - 1]) + if steps[|steps| - 1].event.Add? then 1 else 0
  }

  lemma StepKeeps(s: Sys, st: Step)
    requires Inv(s)
    requires st.event.Add? ==> NextId(s.disk) < U64_MAX
    ensures Inv(After(s, st))
    ensures NextId(After(s, st).disk) <= NextId(s.disk) + if st.event.Add? then 1 else 0
  {
    hide Sound, DeliveryBound;
    match st.event {
      case Add(job) => if s.up { AddSound(s, job, st.cut); }
      case Fetch => if s.up { FetchSound(s, st.cut); }
      case Ack(id) => if s.up && id in s.held { AckSound(s, id, st.cut); }
      case Nack(id) => if s.up && id in s.held { NackSound(s, id, st.cut); }
      case Open => OpenSound(s, st.cut);
    }
    forall i
      ensures DeliveryBound(After(s, st), i)
    {
      assert DeliveryBound(s, i);
      StepBound(s, st, i);
    }
  }

  /** Over every run, stopped anywhere and reopened any number of times: every job added and not yet
      acknowledged has its marker in pending or inflight and its original payload in jobs, there are no
      other markers, and no id is delivered more often than 1 + its nacks + its recoveries. */
  lemma {:induction false} NoJobLost(steps: seq<Step>)
    requires Adds(steps) < U64_MAX
    ensures Inv(Run(START, steps))
    ensures NextId(Run(START, steps).disk) <= 1 + Adds(steps)
    decreases |steps|
  {
    if steps == [] {
      assert forall i :: DeliveryBound(START, i);
    } else {
      hide Inv;
      NoJobLost(steps[..|steps| - 1]);
      StepKeeps(Run(START, steps[..|steps| - 1]), steps[|steps| - 1]);
    }
  }

  /** What an opening puts back was inflight, so only an id of an unfinished delivery counts as recovered. */
  lemma {:induction false} RecoveredWereInflight(d: Disk, cut: nat, i: u64)
    requires i in PutBack(d, ApplyAll(d, Prefix(RecoverWrites(d), cut), Apply))
    ensures Be64(i) in d.inflight
  {
    hide Be64, FromBe64, ApplyAll, RecoverWrites, Recoverable;
    RecoverEffect(d, cut);
    var e := ApplyAll(d, Prefix(RecoverWrites(d), cut), Apply);
    var k :| k in e.pending && k !in d.pending && |k| == 8 && FromBe64(k) == i;
    KeyOf(i, k);
    assert k in e.pending + e.inflight;
  }

  lemma {:induction false} NothingPutBack(steps: seq<Step>, i: u64)
    requires steps != [] && steps[0].event.Open?
    requires forall j :: 0 < j < |steps| ==> !steps[j].event.Open?
    requires forall j :: 0 <= j < |steps| ==> steps[j].event != Nack(i)
    ensures Run(START, steps).nacked[i] == 0 && Run(START, steps).recovered[i] == 0
    decreases |steps|
  {
    hide ApplyAll, Be64, FromBe64, RecoverWrites;
    var front := steps[..|steps| - 1];
    if front == [] {
      assert Run(START, front) == START;
      RecoverEffect(EMPTY_DISK, steps[0].cut);
      assert PutBack(EMPTY_DISK, After(START, steps[0]).disk) == {};
    } else {
      assert forall j :: 0 <= j < |front| ==> front[j] == steps[j];
      NothingPutBack(front, i);
    }
  }

  /** In one life of the process a job that is not nacked is delivered at most once. */
  lemma {:induction false} OncePerLife(steps: seq<Step>, i: u64)
    requires steps != [] && steps[0].event.Open? && Adds(steps) < U64_MAX
    requires forall j :: 0 < j < |steps| ==> !steps[j].event.Open?
    requires forall j :: 0 <= j < |steps| ==> steps[j].event != Nack(i)
    ensures Run(START, steps).delivered[i] <= 1
  {
    hide Run, Sound;
    NoJobLost(steps);
    NothingPutBack(steps, i);
    assert DeliveryBound(Run(START, steps), i);
  }

  /** Reopening after any run leaves nothing inflight and every unacknowledged job pending. */
  lemma {:induction false} ReopenRecoversAll(steps: seq<Step>, cut: nat)
    requires Adds(steps) < U64_MAX
    requires cut >= |RecoverWrites(Run(START, steps).disk)|
    ensures var t := After(Run(START, steps), Step(Open, cut));
            && t.up && t.disk.inflight == {}
            && t.live == Run(START, steps).live
            && (forall k :: k in t.disk.pending <==> |k| == 8 && FromBe64(k) in t.live)
            && Payloads(t.disk, t.live)
  {
    hide Be64, FromBe64, ApplyAll, RecoverWrites, Recoverable;
    NoJobLost(steps);
    var s := Run(START, steps);
    OpenSound(s, cut);
    RecoverEffect(s.disk, cut);
    KeysInjective();
    var t := After(s, Step(Open, cut));
    assert forall k :: k in t.disk.inflight ==> k in s.disk.inflight && |k| == 8;
  }

  /** A fetch delivers the smallest pending id with the payload it was added with, and it delivers
      nothing only when nothing is pending. */
  lemma FetchDeliversOldest(s: Sys)
    requires Inv(s) && s.up
    ensures FetchResult(s.disk).None? <==> s.disk.pending == {}
    ensures FetchResult(s.disk).Some? ==>
              var (id, job) := FetchResult(s.disk).value;
              && id in s.live && job == s.live[id] && Be64(id) in s.disk.pending
              && (forall i :: i in s.live && Be64(i) in s.disk.pending ==> id <= i)
  {
    hide FromBe64;
    KeysInjective();
    if s.disk.pending != {} {
      var k := Least(s.disk.pending);
      var id := FromBe64(k);
      forall i | i in s.live && Be64(i) in s.disk.pending
        ensures id <= i
      {
        Be64Order(i, id);
        Be64Order(id, i);
        LtTotal(k, Be64(i));
      }
    }
  }

  // ---- an acknowledged job stays acknowledged ----

  lemma SettledStep(s: Sys, st: Step, i: u64)
    requires Inv(s) && i in s.settled
    requires st.event.Add? ==> NextId(s.disk) < U64_MAX
    ensures var t := After(s, st);
            i in t.settled && t.delivered[i] == s.delivered[i]
  {
    hide Be64, FromBe64, ApplyAll, RecoverWrites;
    if st.event.Fetch? && s.up && FetchResult(s.disk).Some? {
      FetchDeliversOldest(s);
    }
  }

  lemma {:induction false} RunConcat(s: Sys, a: seq<Step>, st: Step)
    ensures Run(s, a + [st]) == After(Run(s, a), st)
  {
    assert (a + [st])[..|a|] == a;
  }

  /** Once acknowledged, an id is never delivered again, whatever stops and reopenings follow. */
  lemma {:induction false} AckedNeverAgain(a: seq<Step>, b: seq<Step>, i: u64)
    requires Adds(a + b) < U64_MAX
    requires i in Run(START, a).settled
    ensures i in Run(START, a + b).settled
    ensures Run(START, a + b).delivered[i] == Run(START, a).delivered[i]
    decreases |b|
  {
    hide Inv;
    if b == [] {
      assert a + b == a;
    } else {
      var n := |b| - 1;
      assert a + b == (a + b[..n]) + [b[n]];
      assert (a + b)[..|a| + n] == a + b[..n];
      AckedNeverAgain(a, b[..n], i);
      RunConcat(START, a + b[..n], b[n]);
      NoJobLost(a + b[..n]);
      SettledStep(Run(START, a + b[..n]), b[n], i);
    }
  }

  /** The job waits under its marker with the payload it was added with. */
  predicate Stored(d: Disk, i: u64, job: Job) {
    var k := Be64(i);
    (k in d.pending || k in d.inflight) && k in d.jobs && d.jobs[k] == job
  }

  lemma LiveStep(s: Sys, st: Step, i: u64)
    requires Inv(s) && i in s.live && st.event != Ack(i)
    requires st.event.Add? ==> NextId(s.disk) < U64_MAX
    ensures i in After(s, st).live && After(s, st).live[i] == s.live[i]
  {
    hide Be64, FromBe64, ApplyAll, EventWrites, FetchResult;
    assert Known(s, i);
  }

  /** A job that is due stays due with its payload over any further run, stopped and reopened anywhere, in which
      no acknowledgement is of its id. */
  lemma {:induction false} LiveStays(a: seq<Step>, b: seq<Step>, i: u64)
    requires Adds(a + b) < U64_MAX && i in Run(START, a).live
    requires forall j :: 0 <= j < |b| ==> b[j].event != Ack(i)
    ensures i in Run(START, a + b).live && Run(START, a + b).live[i] == Run(START, a).live[i]
    decreases |b|
  {
    hide Inv, After;
    if b == [] {
      assert a + b == a;
    } else {
      var n := |b| - 1;
      assert a + b == (a + b[..n]) + [b[n]];
      assert (a + b)[..|a| + n] == a + b[..n];
      LiveStays(a, b[..n], i);
      RunConcat(START, a + b[..n], b[n]);
      NoJobLost(a + b[..n]);
      LiveStep(Run(START, a + b[..n]), b[n], i);
    }
  }

  lemma LiveStored(s: Sys, i: u64)
    requires Inv(s) && i in s.live
    ensures Stored(s.disk, i, s.live[i])
  {
    hide Be64, FromBe64;
  }

  // ---- on any disk ----

  /** A fetch from any disk takes the smallest marker away, whatever it is. A marker of eight bytes with a payload
      goes inflight and is delivered; one without a payload, or of another length, is dropped and nothing is. */
  lemma {:induction false} FetchTakesSmallest(d: Disk)
    requires d.pending != {}
    ensures var k := Least(d.pending);
            var e := ApplyAll(d, FetchWrites(d), Apply);
            var delivers := |k| == 8 && k in d.jobs;
            && e.pending == d.pending - {k} && e.jobs == d.jobs && e.next == d.next
            && (delivers ==> e.inflight == d.inflight + {k} && FetchResult(d) == Some((FromBe64(k), d.jobs[k])))
            && (!delivers ==> FetchResult(d) == None)
            && (!delivers ==> e.inflight == if |k| == 8 then d.inflight - {k} else d.inflight)
  {
    hide ApplyAll, Be64, FromBe64, Least;
    var k := Least(d.pending);
    ApplyOne(d, DelPending(k), Apply);
    ApplyTwo(d, PutInflight(k), DelPending(k), Apply);
    var m := Apply(Apply(d, PutInflight(k)), DelPending(k));
    ApplyTwo(m, DelInflight(k), DelPending(k), Apply);
    ApplyAllConcat(d, [PutInflight(k), DelPending(k)], [DelInflight(k), DelPending(k)], Apply);
    if |k| == 8 && k in d.jobs {
      assert [PutInflight(k), DelPending(k)] + [] == [PutInflight(k), DelPending(k)];
    }
  }

  /** The next id is what the eight bytes of its cell stand for, and 1 where there are no eight bytes. */
  lemma NextIdReads(d: Disk)
    ensures d.next.Some? && |d.next.value| == 8 ==> d.next == Some(Be64(NextId(d)))
    ensures d.next.None? || |d.next.value| != 8 ==> NextId(d) == 1
  {
    hide Be64, FromBe64;
    if d.next.Some? && |d.next.value| == 8 {
      KeyOf(0, d.next.value);
      KeyOf(FromBe64(d.next.value), d.next.value);
    }
  }

  /** The adds that have got as far as the number, while the process was up. */
  ghost function Numbered(steps: seq<Step>): nat {
    if steps == [] then 0
    else
      var front, last := steps[..|steps| - 1], steps[|steps| - 1];
      Numbered(front) + if last.event.Add? && last.cut >= 1 && Run(START, front).up then 1 else 0
  }

  lemma {:induction false} StepNumbers(s: Sys, st: Step)
    requires st.event.Add? ==> NextId(s.disk) < U64_MAX
    ensures NextId(After(s, st).disk) ==
            NextId(s.disk) + if st.event.Add? && st.cut >= 1 && s.up then 1 else 0
  {
    hide Be64, FromBe64, ApplyAll, RecoverWrites, FetchWrites, FetchResult;
    match st.event {
      case Add(job) =>
        if s.up {
          AddCases(s.disk, job, st.cut);
        }
      case Fetch =>
        FetchLeavesNext(s.disk, st.cut);
      case Ack(id) =>
        PrefixTwo(s.disk, DelInflight(Be64(id)), DelJob(Be64(id)), st.cut, Apply);
      case Nack(id) =>
        PrefixTwo(s.disk, PutPending(Be64(id)), DelInflight(Be64(id)), st.cut, Apply);
      case Open =>
        RecoverEffect(s.disk, st.cut);
    }
  }

  lemma {:induction false} AddCases(d: Disk, job: Job, cut: nat)
    requires NextId(d) < U64_MAX
    ensures NextId(ApplyAll(d, Prefix(AddWrites(d, job), cut), Apply)) == NextId(d) + if cut >= 1 then 1 else 0
  {
    hide Be64, FromBe64, ApplyAll;
    var id := NextId(d);
    PrefixThree(d, PutNext(Be64(SatInc(id))), PutJob(Be64(id), job), PutPending(Be64(id)), cut, Apply);
    KeyOf(id + 1, Be64(id + 1));
  }

  lemma {:induction false} FetchLeavesNext(d: Disk, cut: nat)
    ensures ApplyAll(d, Prefix(FetchWrites(d), cut), Apply).next == d.next
  {
    hide Least;
    OnlyMarkers(d, Prefix(FetchWrites(d), cut));
  }

  lemma {:induction false} OnlyMarkers(d: Disk, ws: seq<Write>)
    requires forall i :: 0 <= i < |ws| ==> !ws[i].PutNext?
    ensures ApplyAll(d, ws, Apply).next == d.next
    decreases |ws|
  {
    if ws != [] {
      OnlyMarkers(Apply(d, ws[0]), ws[1..]);
    }
  }

  /** Ids are handed out from 1 on, one for each add that gets as far as its number, in every run. */
  lemma {:induction false} IdsCountAdds(steps: seq<Step>)
    requires Adds(steps) < U64_MAX
    ensures NextId(Run(START, steps).disk) == 1 + Numbered(steps)
    decreases |steps|
  {
    if steps != [] {
      hide After, NextId, Inv;
      var front, last := steps[..|steps| - 1], steps[|steps| - 1];
      IdsCountAdds(front);
      NoJobLost(front);
      StepNumbers(Run(START, front), last);
    }
  }

  // ---- what the settling discipline is for ----

  /** Every marker has a payload. */
  ghost predicate Covered(d: Disk) {
    forall k :: k in d.pending || k in d.inflight ==> k in d.jobs
  }

  /** An acknowledgement keeps every marker covered if and only if its id is not pending. */
  lemma {:induction false} AckKeepsCoverIff(d: Disk, id: u64)
    requires Covered(d)
    ensures Covered(ApplyAll(d, AckWrites(id), Apply)) <==> Be64(id) !in d.pending
  {
    hide ApplyAll, Be64;
    ApplyTwo(d, DelInflight(Be64(id)), DelJob(Be64(id)), Apply);
  }

  /** At the end of the id space the counter saturates and the next add overwrites the last job. */
  lemma {:induction false} SaturatedIdIsReused(d: Disk, a: Job, b: Job)
    requires NextId(d) == U64_MAX
    ensures var e := ApplyAll(d, AddWrites(d, a), Apply);
            && NextId(e) == NextId(d)
            && Be64(U64_MAX) in ApplyAll(e, AddWrites(e, b), Apply).jobs
            && ApplyAll(e, AddWrites(e, b), Apply).jobs[Be64(U64_MAX)] == b
  {
    hide ApplyAll, Be64;
    var k := Be64(U64_MAX);
    KeyOf(U64_MAX, k);
    PrefixThree(d, PutNext(k), PutJob(k, a), PutPending(k), 3, Apply);
    var e := ApplyAll(d, AddWrites(d, a), Apply);
    PrefixThree(e, PutNext(k), PutJob(k, b), PutPending(k), 3, Apply);
  }
}
