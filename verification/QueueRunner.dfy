/** The runner: the writes of its loop on any disk, and what it executes in which order. */
module QueueRunner {
  import opened Bytes
  import opened QueueDisk
  import opened QueueSafety
  import opened Wrappers
  import opened Writes

  // ---- the loop on a disk ----

  /** How one call of the executor ends, and the jobs that other clients add while it is at work. */
  datatype Turn = Turn(success: bool, arrivals: seq<Job>)

  function AddAllWrites(d: Disk, arrivals: seq<Job>): seq<Write>
    decreases |arrivals|
  {
    if arrivals == [] then []
    else
      var ws := AddWrites(d, arrivals[0]);
      ws + AddAllWrites(ApplyAll(d, ws, Apply), arrivals[1..])
  }

  function SettleWrites(id: u64, success: bool): seq<Write> {
    if success then AckWrites(id) else NackWrites(id)
  }

  function TurnWrites(d: Disk, turn: Turn): seq<Write> {
    var fetch := FetchWrites(d);
    match FetchResult(d)
    case None => fetch
    case Some(e) => fetch + AddAllWrites(ApplyAll(d, fetch, Apply), turn.arrivals) + SettleWrites(e.0, turn.success)
  }

  /** The loop breaks as soon as a fetch delivers nothing, be it that nothing is pending or that the marker it
      met was corrupt or without payload. */
  function RunWrites(d: Disk, turns: seq<Turn>): seq<Write>
    decreases |turns|
  {
    if turns == [] then []
    else
      var ws := TurnWrites(d, turns[0]);
      ws + if FetchResult(d).None? then [] else RunWrites(ApplyAll(d, ws, Apply), turns[1..])
  }

  function Executed(d: Disk, turns: seq<Turn>): seq<(u64, Job)>
    decreases |turns|
  {
    if turns == [] || FetchResult(d).None? then []
    else [FetchResult(d).value] + Executed(ApplyAll(d, TurnWrites(d, turns[0]), Apply), turns[1..])
  }

  // ---- the work before the runner ----

  /** Sound markers with payloads, none both pending and inflight, all of ids handed out before. */
  ghost predicate Workable(d: Disk) {
    && d.pending !! d.inflight
    && (forall k :: k in d.pending ==> |k| == 8 && k in d.jobs)
    && (forall k :: k in d.pending || k in d.inflight ==> |k| == 8 ==> FromBe64(k) < NextId(d))
  }

  /** Every state that a run of the queue reaches with the process up is one the runner can work from. */
  lemma {:induction false} ReachableIsWorkable(steps: seq<Step>)
    requires Adds(steps) < U64_MAX && Run(START, steps).up
    ensures Workable(Run(START, steps).disk)
  {
    hide Run, FromBe64, Be64, NextId;
    NoJobLost(steps);
    KeysInjective();
    var s := Run(START, steps);
    forall k | k in s.disk.pending
      ensures |k| == 8 && k in s.disk.jobs
    {
      assert Be64(FromBe64(k)) == k;
    }
    forall k | k in s.disk.pending || k in s.disk.inflight
      ensures FromBe64(k) < NextId(s.disk)
    {
      assert Known(s, FromBe64(k));
    }
  }

  /** Pending ids in order, the next id, and the payloads. */
  datatype Work = Work(ids: seq<Key>, next: nat, jobs: map<Key, Job>)

  ghost function WorkOf(d: Disk): Work {
    Work(Ascending(d.pending), NextId(d), d.jobs)
  }

  function Arrived(turns: seq<Turn>): nat {
    if turns == [] then 0 else |turns[0].arrivals| + Arrived(turns[1..])
  }

  /** The key of an id; ids stay below the end of the number space. */
  function KeyAt(id: nat): Key {
    if id <= U64_MAX then Be64(id) else []
  }

  function Arrive(w: Work, arrivals: seq<Job>): Work
    decreases |arrivals|
  {
    if arrivals == [] then w
    else
      var k := KeyAt(w.next);
      Arrive(Work(w.ids + [k], w.next + 1, w.jobs[k := arrivals[0]]), arrivals[1..])
  }

  /** The job that is delivered next. */
  function Next(w: Work): (Key, Job)
    requires w.ids != []
  {
    (w.ids[0], if w.ids[0] in w.jobs then w.jobs[w.ids[0]] else [])
  }

  /** After a turn: arrivals stand behind what was there, and a success strikes the first job off. */
  function Turned(w: Work, turn: Turn): Work
    requires w.ids != []
  {
    var a := Arrive(w, turn.arrivals);
    if turn.success && a.ids != [] then Work(a.ids[1..], a.next, a.jobs - {w.ids[0]}) else a
  }

  function Course(w: Work, turns: seq<Turn>): seq<(Key, Job)>
    decreases |turns|
  {
    if w.ids == [] || turns == [] then [] else [Next(w)] + Course(Turned(w, turns[0]), turns[1..])
  }

  function End(w: Work, turns: seq<Turn>): Work
    decreases |turns|
  {
    if w.ids == [] || turns == [] then w else End(Turned(w, turns[0]), turns[1..])
  }

  lemma {:induction false} CourseStep(w: Work, turns: seq<Turn>)
    ensures w.ids == [] || turns == [] ==> Course(w, turns) == [] && End(w, turns) == w
    ensures w.ids != [] && turns != [] ==>
              && Course(w, turns) == [Next(w)] + Course(Turned(w, turns[0]), turns[1..])
              && End(w, turns) == End(Turned(w, turns[0]), turns[1..])
    ensures turns != [] ==> Arrived(turns) == |turns[0].arrivals| + Arrived(turns[1..])
    ensures turns == [] ==> Arrived(turns) == 0
  {
  }

  // ---- how the writes move the work on ----

  lemma {:induction false} BelowIsLt(k: Key, id: u64)
    requires |k| == 8
    ensures FromBe64(k) < id ==> Lt(k, Be64(id))
    ensures id < FromBe64(k) ==> Lt(Be64(id), k)
  {
    hide Be64, FromBe64, Lt;
    KeyOf(FromBe64(k), k);
    Be64Order(FromBe64(k), id);
    Be64Order(id, FromBe64(k));
  }

  lemma {:induction false} AddedDisk(d: Disk, job: Job)
    requires NextId(d) < U64_MAX
    ensures var id := NextId(d);
            var e := ApplyAll(d, AddWrites(d, job), Apply);
            && NextId(e) == id + 1 && e.inflight == d.inflight
            && e.pending == d.pending + {Be64(id)} && e.jobs == d.jobs[Be64(id) := job]
            && |Be64(id)| == 8 && FromBe64(Be64(id)) == id
  {
    hide Be64, FromBe64, ApplyAll;
    var id := NextId(d);
    var k := Be64(id);
    PrefixThree(d, PutNext(Be64(SatInc(id))), PutJob(k, job), PutPending(k), 3, Apply);
    KeyOf(id + 1, Be64(id + 1));
    KeyOf(id, k);
  }

  lemma {:induction false} AddedWork(d: Disk, e: Disk, job: Job)
    requires Workable(d) && NextId(d) < U64_MAX && e == ApplyAll(d, AddWrites(d, job), Apply)
    ensures Workable(e) && NextId(e) == NextId(d) + 1 && e.inflight == d.inflight
    ensures e.pending == d.pending + {Be64(NextId(d))}
    ensures |Be64(NextId(d))| == 8 && FromBe64(Be64(NextId(d))) == NextId(d)
    ensures WorkOf(e) == Work(WorkOf(d).ids + [KeyAt(NextId(d))], NextId(d) + 1, d.jobs[KeyAt(NextId(d)) := job])
  {
    hide Be64, FromBe64, ApplyAll, AddWrites, Ascending, Lt, NextId;
    AddedDisk(d, job);
    forall x | x in d.pending
      ensures Lt(x, Be64(NextId(d)))
    {
      BelowIsLt(x, NextId(d));
    }
    AscendingSnoc(d.pending, Be64(NextId(d)));
  }

  lemma {:induction false} TurnShape(d: Disk)
    requires Workable(d)
    ensures FetchResult(d).None? <==> d.pending == {}
    ensures d.pending != {} ==>
              var k := Least(d.pending);
              && FetchResult(d) == Some((FromBe64(k), d.jobs[k])) && Be64(FromBe64(k)) == k
              && FetchWrites(d) == [PutInflight(k), DelPending(k)]
              && k in d.pending && k !in d.inflight
    ensures d.pending == {} ==> FetchWrites(d) == [] && ApplyAll(d, [], Apply) == d && Ascending(d.pending) == []
  {
    hide Be64, FromBe64;
    if d.pending != {} {
      KeyOf(0, Least(d.pending));
      KeyOf(FromBe64(Least(d.pending)), Least(d.pending));
    }
  }

  /** The smallest pending marker has moved to inflight. */
  ghost predicate Taken(d: Disk, d1: Disk, k: Key) {
    && Workable(d) && k in d.pending && k !in d.inflight && |k| == 8
    && d1 == d.(pending := d.pending - {k}, inflight := d.inflight + {k})
    && Ascending(d.pending) == [k] + Ascending(d1.pending)
    && (forall x :: x in d1.pending ==> Lt(k, x))
    && Workable(d1) && k in d1.jobs && NextId(d1) == NextId(d)
  }

  lemma FetchedWork(d: Disk, d1: Disk, k: Key)
    requires Workable(d) && d.pending != {} && k == Least(d.pending) && k !in d.inflight
    requires d1 == d.(pending := d.pending - {k}, inflight := d.inflight + {k})
    ensures Taken(d, d1, k)
    ensures WorkOf(d).ids != [] && Next(WorkOf(d)) == (k, d.jobs[k])
  {
    hide FromBe64, Be64, Lt;
    forall x | x in d1.pending
      ensures Lt(k, x)
    {
      assert Le(k, x);
    }
  }

  /** `arrivals` have been added to `d0`, and nothing else happened. */
  ghost predicate Joined(d0: Disk, d: Disk, arrivals: seq<Job>) {
    && Workable(d) && d.inflight == d0.inflight && NextId(d) == NextId(d0) + |arrivals|
    && WorkOf(d) == Arrive(WorkOf(d0), arrivals)
    && (forall x :: x in d.pending ==> x in d0.pending || (|x| == 8 && FromBe64(x) >= NextId(d0)))
  }

  lemma {:induction false} AddAllWork(d: Disk, arrivals: seq<Job>)
    requires Workable(d) && NextId(d) + |arrivals| <= U64_MAX
    ensures Joined(d, ApplyAll(d, AddAllWrites(d, arrivals), Apply), arrivals)
    decreases |arrivals|
  {
    hide ApplyAll, AddWrites, Workable, Ascending, NextId, Be64, FromBe64, Joined;
    if arrivals == [] {
      ApplyNone(d, Apply);
      NoneJoined(d);
    } else {
      var ws := AddWrites(d, arrivals[0]);
      var e := ApplyAll(d, ws, Apply);
      var more := AddAllWrites(e, arrivals[1..]);
      AddedWork(d, e, arrivals[0]);
      AddAllWork(e, arrivals[1..]);
      ApplyAllConcat(d, ws, more, Apply);
      FirstJoined(d, e, ApplyAll(e, more, Apply), arrivals);
    }
  }

  lemma {:induction false} NoneJoined(d: Disk)
    requires Workable(d)
    ensures Joined(d, d, [])
  {
    hide Workable, Ascending, NextId;
  }

  lemma {:induction false} FirstJoined(d: Disk, e: Disk, f: Disk, arrivals: seq<Job>)
    requires arrivals != [] && Workable(d) && NextId(d) + |arrivals| <= U64_MAX
    requires e == ApplyAll(d, AddWrites(d, arrivals[0]), Apply) && Joined(e, f, arrivals[1..])
    ensures Joined(d, f, arrivals)
  {
    hide ApplyAll, AddWrites, Workable, Ascending, NextId, Be64, FromBe64, Arrive, KeyAt, WorkOf;
    AddedWork(d, e, arrivals[0]);
    FirstArrived(d, e, f, arrivals);
    FirstMarker(d, e, f);
  }

  lemma {:induction false} FirstArrived(d: Disk, e: Disk, f: Disk, arrivals: seq<Job>)
    requires arrivals != [] && WorkOf(f) == Arrive(WorkOf(e), arrivals[1..])
    requires var k := KeyAt(NextId(d));
             WorkOf(e) == Work(WorkOf(d).ids + [k], NextId(d) + 1, d.jobs[k := arrivals[0]])
    ensures WorkOf(f) == Arrive(WorkOf(d), arrivals)
  {
    hide Ascending, NextId, Arrive, KeyAt;
    ArriveFirst(WorkOf(d), arrivals);
  }

  lemma {:induction false} FirstMarker(d: Disk, e: Disk, f: Disk)
    requires e.pending == d.pending + {Be64(NextId(d))} && NextId(e) == NextId(d) + 1
    requires |Be64(NextId(d))| == 8 && FromBe64(Be64(NextId(d))) == NextId(d)
    requires forall x :: x in f.pending ==> x in e.pending || (|x| == 8 && FromBe64(x) >= NextId(e))
    ensures forall x :: x in f.pending ==> x in d.pending || (|x| == 8 && FromBe64(x) >= NextId(d))
  {
    hide Be64, FromBe64, NextId;
  }

  lemma {:induction false} ArriveFirst(w: Work, arrivals: seq<Job>)
    requires arrivals != []
    ensures var k := KeyAt(w.next);
            Arrive(w, arrivals) == Arrive(Work(w.ids + [k], w.next + 1, w.jobs[k := arrivals[0]]), arrivals[1..])
  {
  }

  lemma StillThere(d: Disk, d1: Disk, d2: Disk, k: Key, arrivals: seq<Job>)
    requires Taken(d, d1, k) && Joined(d1, d2, arrivals)
    ensures InTurn(d, d1, d2, k, arrivals) && k in d2.jobs
  {
    hide FromBe64, Be64, Lt, Ascending, NextId;
    ArriveKeeps(WorkOf(d1), arrivals);
  }

  lemma {:induction false} ArriveBehind(first: Key, w: Work, arrivals: seq<Job>)
    ensures Arrive(Work([first] + w.ids, w.next, w.jobs), arrivals) ==
            var a := Arrive(w, arrivals); Work([first] + a.ids, a.next, a.jobs)
    decreases |arrivals|
  {
    hide KeyAt;
    if arrivals != [] {
      var k := KeyAt(w.next);
      assert [first] + w.ids + [k] == [first] + (w.ids + [k]);
      ArriveBehind(first, Work(w.ids + [k], w.next + 1, w.jobs[k := arrivals[0]]), arrivals[1..]);
    }
  }

  /** What stays of a fetched job's turn once the arrivals are in. */
  ghost predicate InTurn(d: Disk, d1: Disk, d2: Disk, k: Key, arrivals: seq<Job>) {
    && Taken(d, d1, k)
    && Workable(d2) && WorkOf(d2) == Arrive(WorkOf(d1), arrivals) && d2.inflight == d1.inflight
    && (forall x :: x in d2.pending ==> x in d1.pending || (|x| == 8 && FromBe64(x) >= NextId(d1)))
  }

  lemma {:induction false} ArrivalsBehind(d: Disk, d1: Disk, d2: Disk, k: Key, arrivals: seq<Job>)
    requires InTurn(d, d1, d2, k, arrivals)
    ensures Arrive(WorkOf(d), arrivals) == Work([k] + WorkOf(d2).ids, NextId(d2), d2.jobs)
    ensures forall x :: x in d2.pending ==> Lt(k, x)
    ensures WorkOf(d).ids != [] && WorkOf(d).ids[0] == k
  {
    hide Be64, FromBe64, Lt, Ascending, Least;
    assert WorkOf(d) == Work([k] + WorkOf(d1).ids, WorkOf(d1).next, WorkOf(d1).jobs);
    ArriveBehind(k, WorkOf(d1), arrivals);
    hide NextId;
    forall x | x in d2.pending && x !in d1.pending
      ensures Lt(k, x)
    {
      KeyOf(FromBe64(x), x);
      BelowIsLt(k, FromBe64(x));
    }
  }

  lemma AckedWork(d: Disk, d1: Disk, d2: Disk, e: Disk, k: Key, turn: Turn)
    requires InTurn(d, d1, d2, k, turn.arrivals) && turn.success
    requires e == d2.(inflight := d2.inflight - {k}, jobs := d2.jobs - {k})
    ensures Workable(e) && e.inflight == d.inflight
    ensures WorkOf(d).ids != [] && WorkOf(e) == Turned(WorkOf(d), turn)
  {
    hide Be64, FromBe64, Lt, Ascending, NextId, Arrive;
    ArrivalsBehind(d, d1, d2, k, turn.arrivals);
    NextSame(d2, e);
    assert k !in d2.pending by { NotBefore(d2, k); }
    StruckOff(d, d2, e, k);
    assert ([k] + WorkOf(d2).ids)[1..] == WorkOf(d2).ids;
  }

  lemma {:induction false} NotBefore(d: Disk, k: Key)
    requires forall x :: x in d.pending ==> Lt(k, x)
    ensures k !in d.pending
  {
    LtIrreflexive(k);
  }

  lemma StruckOff(d: Disk, d2: Disk, e: Disk, k: Key)
    requires Workable(d2) && k !in d2.pending && k !in d.inflight && d2.inflight == d.inflight + {k}
    requires e == d2.(inflight := d2.inflight - {k}, jobs := d2.jobs - {k})
    ensures Workable(e) && e.inflight == d.inflight
  {
    hide FromBe64, NextId;
    NextSame(d2, e);
    assert e.inflight == d.inflight;
  }

  lemma NackedWork(d: Disk, d1: Disk, d2: Disk, e: Disk, k: Key, turn: Turn)
    requires InTurn(d, d1, d2, k, turn.arrivals) && !turn.success && k in d2.jobs
    requires e == d2.(pending := d2.pending + {k}, inflight := d2.inflight - {k})
    ensures Workable(e) && e.inflight == d.inflight
    ensures WorkOf(d).ids != [] && WorkOf(e) == Turned(WorkOf(d), turn)
  {
    hide Be64, FromBe64, Lt, Ascending, NextId, Arrive;
    ArrivalsBehind(d, d1, d2, k, turn.arrivals);
    NextSame(d2, e);
    AscendingFirst(d2.pending, k);
    assert WorkOf(e) == Work([k] + WorkOf(d2).ids, NextId(d2), d2.jobs);
    BackInLine(d, d2, e, k);
  }

  lemma BackInLine(d: Disk, d2: Disk, e: Disk, k: Key)
    requires Workable(d2) && k in d2.jobs && |k| == 8 && k !in d.inflight && d2.inflight == d.inflight + {k}
    requires e == d2.(pending := d2.pending + {k}, inflight := d2.inflight - {k})
    ensures Workable(e) && e.inflight == d.inflight
  {
    hide FromBe64, NextId;
    NextSame(d2, e);
    assert e.inflight == d.inflight;
  }

  lemma TurnedNext(w: Work, turn: Turn)
    ensures w.ids != [] ==> Turned(w, turn).next == w.next + |turn.arrivals|
  {
    ArriveKeeps(w, turn.arrivals);
  }

  lemma {:induction false} ArriveKeeps(w: Work, arrivals: seq<Job>)
    ensures Arrive(w, arrivals).next == w.next + |arrivals|
    ensures forall k :: k in w.jobs ==> k in Arrive(w, arrivals).jobs
    decreases |arrivals|
  {
    hide KeyAt;
    if arrivals != [] {
      var k := KeyAt(w.next);
      ArriveKeeps(Work(w.ids + [k], w.next + 1, w.jobs[k := arrivals[0]]), arrivals[1..]);
    }
  }

  // ---- the loop on a workable disk ----

  lemma {:induction false} TurnWork(d: Disk, turn: Turn)
    requires Workable(d) && NextId(d) + |turn.arrivals| <= U64_MAX
    ensures var e := ApplyAll(d, TurnWrites(d, turn), Apply);
            && Workable(e) && e.inflight == d.inflight
            && (FetchResult(d).None? <==> WorkOf(d).ids == [])
            && (FetchResult(d).None? ==> e == d)
            && (FetchResult(d).Some? ==>
                  var (id, job) := FetchResult(d).value;
                  && WorkOf(d).ids != [] && Next(WorkOf(d)) == (Be64(id), job)
                  && WorkOf(e) == Turned(WorkOf(d), turn) && NextId(e) == NextId(d) + |turn.arrivals|)
  {
    hide Be64, FromBe64, ApplyAll, Least, Ascending, Workable, NextId, Next, Turned, Arrive, WorkOf, AddAllWrites;
    hide FetchWrites, FetchResult, Taken, Joined, InTurn;
    TurnShape(d);
    if FetchResult(d).None? {
      NothingPending(d);
    } else {
      var id := FetchResult(d).value.0;
      var k := Be64(id);
      var fetch := FetchWrites(d);
      ApplyTwo(d, PutInflight(k), DelPending(k), Apply);
      var d1 := ApplyAll(d, fetch, Apply);
      FetchedWork(d, d1, k);
      TakenKeeps(d, d1, k);
      var adds := AddAllWrites(d1, turn.arrivals);
      AddAllWork(d1, turn.arrivals);
      var d2 := ApplyAll(d1, adds, Apply);
      StillThere(d, d1, d2, k, turn.arrivals);
      ApplyAllConcat(d, fetch, adds, Apply);
      ApplyAllConcat(d, fetch + adds, SettleWrites(id, turn.success), Apply);
      SettledWork(d, d1, d2, id, turn);
    }
  }

  lemma {:induction false} NothingPending(d: Disk)
    requires d.pending == {}
    ensures WorkOf(d).ids == []
  {
  }

  lemma {:induction false} TakenKeeps(d: Disk, d1: Disk, k: Key)
    requires Taken(d, d1, k)
    ensures Workable(d1) && NextId(d1) == NextId(d)
  {
  }

  lemma {:induction false} SettledWork(d: Disk, d1: Disk, d2: Disk, id: u64, turn: Turn)
    requires InTurn(d, d1, d2, Be64(id), turn.arrivals) && Be64(id) in d2.jobs
    ensures var e := ApplyAll(d2, SettleWrites(id, turn.success), Apply);
            && Workable(e) && e.inflight == d.inflight
            && WorkOf(d).ids != [] && WorkOf(e) == Turned(WorkOf(d), turn)
            && NextId(e) == NextId(d) + |turn.arrivals|
  {
    hide Be64, FromBe64, ApplyAll, InTurn, Workable, NextId, Turned, WorkOf;
    var k := Be64(id);
    if turn.success {
      ApplyTwo(d2, DelInflight(k), DelJob(k), Apply);
      AckedWork(d, d1, d2, ApplyAll(d2, AckWrites(id), Apply), k, turn);
    } else {
      ApplyTwo(d2, PutPending(k), DelInflight(k), Apply);
      NackedWork(d, d1, d2, ApplyAll(d2, NackWrites(id), Apply), k, turn);
    }
    TurnedNext(WorkOf(d), turn);
    WorkNext(d);
    WorkNext(ApplyAll(d2, SettleWrites(id, turn.success), Apply));
  }

  lemma {:induction false} WorkNext(d: Disk)
    ensures WorkOf(d).next == NextId(d)
  {
  }

  function Keyed(executed: seq<(u64, Job)>): seq<(Key, Job)> {
    seq(|executed|, i requires 0 <= i < |executed| => (Be64(executed[i].0), executed[i].1))
  }

  /** On a disk with sound markers the loop executes and leaves what the work list says, and it leaves the
      deliveries of other clients inflight. */
  lemma {:induction false} RunnerWork(d: Disk, turns: seq<Turn>)
    requires Workable(d) && NextId(d) + Arrived(turns) <= U64_MAX
    ensures Keyed(Executed(d, turns)) == Course(WorkOf(d), turns)
    ensures var e := ApplyAll(d, RunWrites(d, turns), Apply);
            Workable(e) && e.inflight == d.inflight && WorkOf(e) == End(WorkOf(d), turns)
    decreases |turns|
  {
    hide Be64, ApplyAll, TurnWrites, FetchResult, Workable, NextId, Next, Turned, WorkOf, Course, End, Arrived;
    CourseStep(WorkOf(d), turns);
    if turns == [] {
      ApplyNone(d, Apply);
    } else {
      TurnWork(d, turns[0]);
      var ws := TurnWrites(d, turns[0]);
      assert ws + [] == ws;
      if FetchResult(d).Some? {
        var e := ApplyAll(d, ws, Apply);
        RunnerWork(e, turns[1..]);
        ApplyAllConcat(d, ws, RunWrites(e, turns[1..]), Apply);
        KeyedFirst(FetchResult(d).value, Executed(e, turns[1..]));
      }
    }
  }

  lemma {:induction false} KeyedFirst(first: (u64, Job), rest: seq<(u64, Job)>)
    ensures Keyed([first] + rest) == [(Be64(first.0), first.1)] + Keyed(rest)
  {
    hide Be64;
  }

  // ---- what the runner does with its work ----

  function NewKeys(next: nat, n: nat): (keys: seq<Key>)
    ensures |keys| == n
  {
    seq(n, i requires 0 <= i < n => KeyAt(next + i))
  }

  lemma NewKeysFirst(next: nat, n: nat)
    ensures n > 0 ==> NewKeys(next, n) == [KeyAt(next)] + NewKeys(next + 1, n - 1)
  {
    hide KeyAt;
  }

  lemma NewKeysConcat(next: nat, m: nat, n: nat)
    ensures NewKeys(next, m) + NewKeys(next + m, n) == NewKeys(next, m + n)
  {
    hide KeyAt;
  }

  lemma {:induction false} ArriveIds(w: Work, arrivals: seq<Job>)
    ensures Arrive(w, arrivals).ids == w.ids + NewKeys(w.next, |arrivals|)
    decreases |arrivals|
  {
    hide KeyAt, NewKeys;
    if arrivals == [] {
      NoNewKeys(w.next);
    } else {
      var k := KeyAt(w.next);
      ArriveIds(Work(w.ids + [k], w.next + 1, w.jobs[k := arrivals[0]]), arrivals[1..]);
      NewKeysFirst(w.next, |arrivals|);
      assert w.ids + [k] + NewKeys(w.next + 1, |arrivals| - 1) == w.ids + ([k] + NewKeys(w.next + 1, |arrivals| - 1));
    }
  }

  lemma NoNewKeys(next: nat)
    ensures NewKeys(next, 0) == []
  {
  }

  function Successes(turns: seq<Turn>): nat {
    if turns == [] then 0 else (if turns[0].success then 1 else 0) + Successes(turns[1..])
  }

  /** All jobs in the order in which they were added: those pending at first, then the arrivals. */
  function Offered(w: Work, turns: seq<Turn>): seq<Key> {
    w.ids + NewKeys(w.next, Arrived(turns))
  }

  lemma OfferedStep(w: Work, turns: seq<Turn>)
    requires w.ids != [] && turns != []
    ensures Offered(Turned(w, turns[0]), turns[1..]) ==
            if turns[0].success then Offered(w, turns)[1..] else Offered(w, turns)
  {
    hide KeyAt, NewKeys;
    var t := turns[0];
    ArriveIds(w, t.arrivals);
    ArriveKeeps(w, t.arrivals);
    NewKeysConcat(w.next, |t.arrivals|, Arrived(turns[1..]));
    var m, n := NewKeys(w.next, |t.arrivals|), NewKeys(w.next + |t.arrivals|, Arrived(turns[1..]));
    assert w.ids + m + n == w.ids + (m + n);
    if t.success {
      assert (w.ids + m)[1..] + n == (w.ids + m + n)[1..];
    }
  }

  /** First in, first out: the j-th execution is of the job at the place given by the number of successes
      before it; so a job that fails is retried before any later one. */
  lemma {:induction false} CourseOrder(w: Work, turns: seq<Turn>, j: nat)
    requires j < |Course(w, turns)|
    ensures j < |turns| && Successes(turns[..j]) < |Offered(w, turns)|
    ensures Course(w, turns)[j].0 == Offered(w, turns)[Successes(turns[..j])]
    decreases |turns|
  {
    hide Offered, Turned;
    OfferedStep(w, turns);
    FirstOffered(w, turns);
    if j > 0 {
      CourseOrder(Turned(w, turns[0]), turns[1..], j - 1);
      assert turns[..j][1..] == turns[1..][..j - 1] && turns[..j][0] == turns[0];
    }
  }

  lemma FirstOffered(w: Work, turns: seq<Turn>)
    requires w.ids != []
    ensures Offered(w, turns) != [] && Offered(w, turns)[0] == w.ids[0]
  {
    hide NewKeys;
  }

  function Jobs(course: seq<(Key, Job)>): seq<Key> {
    seq(|course|, i requires 0 <= i < |course| => course[i].0)
  }

  /** With an executor that always succeeds, the jobs executed and then those left are exactly the jobs that
      were there and then those that came in, in ascending id order: each is executed once or left. */
  lemma {:induction false} ExecutedOrLeft(w: Work, turns: seq<Turn>)
    requires forall i :: 0 <= i < |turns| ==> turns[i].success
    ensures w.next <= End(w, turns).next
    ensures Jobs(Course(w, turns)) + End(w, turns).ids == w.ids + NewKeys(w.next, End(w, turns).next - w.next)
    decreases |turns|
  {
    hide KeyAt, NewKeys, Turned, Next, Course, End, Jobs;
    NothingRun(w);
    NoNewKeys(w.next);
    CourseStep(w, turns);
    if w.ids != [] && turns != [] {
      var v := Turned(w, turns[0]);
      ExecutedOrLeft(v, turns[1..]);
      TurnedIds(w, turns[0]);
      NewKeysConcat(w.next, |turns[0].arrivals|, End(v, turns[1..]).next - v.next);
      FirstJob(w, Course(v, turns[1..]));
      Regroup(w.ids[0], Jobs(Course(v, turns[1..])), End(v, turns[1..]).ids, v.ids, w.ids,
              NewKeys(w.next, |turns[0].arrivals|), NewKeys(v.next, End(v, turns[1..]).next - v.next));
    }
  }

  lemma NothingRun(w: Work)
    ensures Jobs([]) == [] && w.ids + [] == w.ids
  {
  }

  lemma FirstJob(w: Work, rest: seq<(Key, Job)>)
    requires w.ids != []
    ensures Jobs([Next(w)] + rest) == [w.ids[0]] + Jobs(rest)
  {
  }

  lemma Regroup(first: Key, done: seq<Key>, left: seq<Key>, later: seq<Key>, ids: seq<Key>, m: seq<Key>, n: seq<Key>)
    requires [first] + later == ids + m && done + left == later + n
    ensures [first] + done + left == ids + (m + n)
  {
    assert [first] + done + left == [first] + (done + left);
    assert [first] + (later + n) == ids + m + n;
  }

  lemma TurnedIds(w: Work, turn: Turn)
    requires w.ids != []
    ensures Turned(w, turn).next == w.next + |turn.arrivals|
    ensures turn.success ==> [w.ids[0]] + Turned(w, turn).ids == w.ids + NewKeys(w.next, |turn.arrivals|)
    ensures !turn.success ==> Turned(w, turn).ids == w.ids + NewKeys(w.next, |turn.arrivals|)
  {
    hide KeyAt, NewKeys;
    ArriveIds(w, turn.arrivals);
    ArriveKeeps(w, turn.arrivals);
  }

  /** The loop drains: with enough successful turns nothing is left. */
  lemma {:induction false} DrainAll(w: Work, turns: seq<Turn>)
    requires forall i :: 0 <= i < |turns| ==> turns[i].success
    requires |turns| >= |w.ids| + Arrived(turns)
    ensures End(w, turns).ids == []
    decreases |turns|
  {
    hide KeyAt, NewKeys, Turned;
    CourseStep(w, turns);
    if w.ids != [] && turns != [] {
      TurnedIds(w, turns[0]);
      DrainAll(Turned(w, turns[0]), turns[1..]);
    }
  }

  // ---- payloads ----

  /** Ids in use are distinct, below the next one, and have payloads. */
  ghost predicate Orderly(w: Work) {
    && (forall i, j :: 0 <= i < j < |w.ids| ==> w.ids[i] != w.ids[j])
    && (forall i :: 0 <= i < |w.ids| ==> w.ids[i] in w.jobs && Given(w.ids[i], w.next))
  }

  ghost predicate Given(k: Key, next: nat) {
    exists n: nat :: n < next && KeyAt(n) == k
  }

  lemma WorkIsOrderly(d: Disk)
    requires Workable(d)
    ensures Orderly(WorkOf(d))
  {
    hide Be64, FromBe64, Lt, Ascending, NextId;
    var ids := Ascending(d.pending);
    forall i, j | 0 <= i < j < |ids|
      ensures ids[i] != ids[j]
    {
      LtIrreflexive(ids[i]);
    }
    forall i | 0 <= i < |ids|
      ensures ids[i] in d.jobs && Given(ids[i], NextId(d))
    {
      assert ids[i] in ids;
      KeyOf(FromBe64(ids[i]), ids[i]);
      assert KeyAt(FromBe64(ids[i])) == ids[i];
    }
  }

  lemma KeyAtInjective(m: nat, n: nat)
    requires m <= U64_MAX && n <= U64_MAX && KeyAt(m) == KeyAt(n)
    ensures m == n
  {
    hide Be64;
    Be64Order(m, n);
  }

  lemma OneMoreOrderly(w: Work, job: Job)
    requires Orderly(w) && w.next < U64_MAX
    ensures var v := Work(w.ids + [KeyAt(w.next)], w.next + 1, w.jobs[KeyAt(w.next) := job]);
            Orderly(v) && forall i :: 0 <= i < |w.ids| ==> v.jobs[w.ids[i]] == w.jobs[w.ids[i]]
  {
    hide KeyAt;
    forall i | 0 <= i < |w.ids|
      ensures w.ids[i] != KeyAt(w.next)
    {
      assert Given(w.ids[i], w.next);
      var n: nat :| n < w.next && KeyAt(n) == w.ids[i];
      if KeyAt(n) == KeyAt(w.next) {
        KeyAtInjective(n, w.next);
      }
    }
  }

  /** Arrivals get new ids, so they leave every payload that is there alone. */
  lemma {:induction false} ArriveOrderly(w: Work, arrivals: seq<Job>)
    requires Orderly(w) && w.next + |arrivals| <= U64_MAX
    ensures Orderly(Arrive(w, arrivals))
    ensures forall i :: 0 <= i < |w.ids| ==>
              && w.ids[i] in w.jobs && w.ids[i] in Arrive(w, arrivals).jobs
              && Arrive(w, arrivals).jobs[w.ids[i]] == w.jobs[w.ids[i]]
    decreases |arrivals|
  {
    hide KeyAt;
    if arrivals != [] {
      var v := Work(w.ids + [KeyAt(w.next)], w.next + 1, w.jobs[KeyAt(w.next) := arrivals[0]]);
      OneMoreOrderly(w, arrivals[0]);
      ArriveOrderly(v, arrivals[1..]);
      assert forall i :: 0 <= i < |w.ids| ==> v.ids[i] == w.ids[i];
      hide Orderly;
    }
  }

  lemma {:induction false} ArriveConcat(w: Work, a: seq<Job>, b: seq<Job>)
    ensures Arrive(w, a + b) == Arrive(Arrive(w, a), b)
    decreases |a|
  {
    hide KeyAt;
    if a == [] {
      assert a + b == b;
    } else {
      assert (a + b)[1..] == a[1..] + b;
      var k := KeyAt(w.next);
      ArriveConcat(Work(w.ids + [k], w.next + 1, w.jobs[k := a[0]]), a[1..], b);
    }
  }

  /** Without one payload and with other ids, the same arrivals leave no other payload different. */
  lemma {:induction false} ArriveLess(v: Work, w: Work, arrivals: seq<Job>)
    requires v.next == w.next && forall k :: k in v.jobs ==> k in w.jobs && v.jobs[k] == w.jobs[k]
    ensures forall k :: k in Arrive(v, arrivals).jobs ==>
              && k in Arrive(w, arrivals).jobs
              && Arrive(v, arrivals).jobs[k] == Arrive(w, arrivals).jobs[k]
    decreases |arrivals|
  {
    hide KeyAt;
    if arrivals != [] {
      var k := KeyAt(w.next);
      ArriveLess(Work(v.ids + [k], v.next + 1, v.jobs[k := arrivals[0]]),
                 Work(w.ids + [k], w.next + 1, w.jobs[k := arrivals[0]]), arrivals[1..]);
    }
  }

  lemma TurnedOrderly(w: Work, turn: Turn)
    requires Orderly(w) && w.ids != [] && w.next + |turn.arrivals| <= U64_MAX
    ensures Orderly(Turned(w, turn))
  {
    hide KeyAt;
    var a := Arrive(w, turn.arrivals);
    ArriveOrderly(w, turn.arrivals);
    ArriveIds(w, turn.arrivals);
    assert a.ids[0] == w.ids[0];
    hide Arrive;
    if turn.success {
      var v := Turned(w, turn);
      assert forall i :: 0 <= i < |v.ids| ==> v.ids[i] == a.ids[i + 1] && v.ids[i] != a.ids[0];
    }
  }

  lemma {:induction false} AllArrived(turns: seq<Turn>)
    ensures |AllArrivals(turns)| == Arrived(turns)
    decreases |turns|
  {
    if turns != [] {
      AllArrived(turns[1..]);
    }
  }

  /** Every execution gets the payload that its job was added with. */
  lemma {:induction false} CoursePayloads(w: Work, turns: seq<Turn>, j: nat)
    requires Orderly(w) && w.next + Arrived(turns) <= U64_MAX && j < |Course(w, turns)|
    ensures var (k, job) := Course(w, turns)[j];
            var all := Arrive(w, AllArrivals(turns)).jobs;
            k in all && job == all[k]
    decreases |turns|
  {
    hide Orderly, Arrive, Turned;
    AllArrived(turns);
    CourseStep(w, turns);
    if j == 0 {
      ArriveOrderly(w, AllArrivals(turns));
    } else {
      var v, rest := Turned(w, turns[0]), turns[1..];
      TurnedOrderly(w, turns[0]);
      TurnedIds(w, turns[0]);
      CoursePayloads(v, rest, j - 1);
      TurnedJobs(w, turns[0]);
      ArriveConcat(w, turns[0].arrivals, AllArrivals(rest));
      ArriveLess(v, Arrive(w, turns[0].arrivals), AllArrivals(rest));
    }
  }

  lemma {:induction false} TurnedJobs(w: Work, turn: Turn)
    requires w.ids != []
    ensures var v, a := Turned(w, turn), Arrive(w, turn.arrivals);
            v.next == a.next && forall k :: k in v.jobs ==> k in a.jobs && v.jobs[k] == a.jobs[k]
  {
    hide Arrive;
  }

  function AllArrivals(turns: seq<Turn>): seq<Job> {
    if turns == [] then [] else turns[0].arrivals + AllArrivals(turns[1..])
  }

  /** The payload that a job was added with: it was there at the start, or it came in with an arrival. */
  lemma {:induction false} ArrivedPayload(w: Work, arrivals: seq<Job>, k: Key)
    requires w.next + |arrivals| <= U64_MAX && k in Arrive(w, arrivals).jobs
    ensures (k in w.jobs && Arrive(w, arrivals).jobs[k] == w.jobs[k])
            || exists i :: 0 <= i < |arrivals| && k == KeyAt(w.next + i) && Arrive(w, arrivals).jobs[k] == arrivals[i]
    decreases |arrivals|
  {
    hide KeyAt;
    if arrivals != [] {
      var first := KeyAt(w.next);
      var v := Work(w.ids + [first], w.next + 1, w.jobs[first := arrivals[0]]);
      ArrivedPayload(v, arrivals[1..], k);
      if k in v.jobs && Arrive(v, arrivals[1..]).jobs[k] == v.jobs[k] {
        assert k == first || k in w.jobs;
        assert k == first ==> k == KeyAt(w.next + 0) && v.jobs[k] == arrivals[0];
      } else {
        var i :| && 0 <= i < |arrivals[1..]| && k == KeyAt(v.next + i)
                 && Arrive(v, arrivals[1..]).jobs[k] == arrivals[1..][i];
        assert k == KeyAt(w.next + (i + 1)) && Arrive(w, arrivals).jobs[k] == arrivals[i + 1];
      }
    }
  }

  /** Whatever the runner executes, from any disk with sound markers, gets the payload that its job was added
      with: the one stored at the start, or that of the arrival which was given the id. */
  lemma {:induction false} RunnerPayloads(d: Disk, turns: seq<Turn>, j: nat)
    requires Workable(d) && NextId(d) + Arrived(turns) <= U64_MAX && j < |Executed(d, turns)|
    ensures var (id, job) := Executed(d, turns)[j];
            var late := AllArrivals(turns);
            || (Be64(id) in d.jobs && job == d.jobs[Be64(id)])
            || (NextId(d) <= id < NextId(d) + |late| && job == late[id - NextId(d)])
  {
    hide Be64, FromBe64, Workable, NextId, Executed, Course, Arrive, Orderly, Arrived, AllArrivals, Ascending;
    RunnerWork(d, turns);
    WorkIsOrderly(d);
    AllArrived(turns);
    var (id, job) := Executed(d, turns)[j];
    assert Course(WorkOf(d), turns)[j] == (Be64(id), job);
    CoursePayloads(WorkOf(d), turns, j);
    ArrivedPayload(WorkOf(d), AllArrivals(turns), Be64(id));
    var k, late := Be64(id), AllArrivals(turns);
    if !(k in d.jobs && job == d.jobs[k]) {
      var i :| 0 <= i < |late| && k == KeyAt(NextId(d) + i) && job == late[i];
      KeyAtInjective(id, NextId(d) + i);
    }
  }

  // ---- the loop as a run of events ----

  function AddEvents(arrivals: seq<Job>): seq<Event> {
    if arrivals == [] then [] else [Add(arrivals[0])] + AddEvents(arrivals[1..])
  }

  /** What follows a fetch that has delivered `id`. */
  function RestEvents(id: u64, turn: Turn): seq<Event> {
    AddEvents(turn.arrivals) + [if turn.success then Ack(id) else Nack(id)]
  }

  function TurnEvents(d: Disk, turn: Turn): seq<Event> {
    [Fetch] + match FetchResult(d) case None => [] case Some(e) => RestEvents(e.0, turn)
  }

  /** The calls that the loop makes, and those of other clients in between. */
  function LoopEvents(d: Disk, turns: seq<Turn>): seq<Event>
    decreases |turns|
  {
    if turns == [] then []
    else
      TurnEvents(d, turns[0]) +
      if FetchResult(d).None? then [] else LoopEvents(ApplyAll(d, TurnWrites(d, turns[0]), Apply), turns[1..])
  }

  /** The writes of events that follow one another. */
  function Along(d: Disk, es: seq<Event>): seq<Write>
    decreases |es|
  {
    if es == [] then []
    else
      var ws := EventWrites(d, es[0]);
      ws + Along(ApplyAll(d, ws, Apply), es[1..])
  }

  /** The events that a process goes through which stops after `cut` writes: all of them finished, up to the
      one that the stop falls in. */
  function Stopping(d: Disk, es: seq<Event>, cut: nat): seq<Step>
    decreases |es|
  {
    if es == [] then []
    else
      var ws := EventWrites(d, es[0]);
      if cut < |ws| then [Step(es[0], cut)]
      else [Step(es[0], |ws|)] + Stopping(ApplyAll(d, ws, Apply), es[1..], cut - |ws|)
  }

  lemma {:induction false} AlongConcat(d: Disk, a: seq<Event>, b: seq<Event>)
    ensures Along(d, a + b) == Along(d, a) + Along(ApplyAll(d, Along(d, a), Apply), b)
    decreases |a|
  {
    hide ApplyAll, EventWrites;
    if a == [] {
      assert a + b == b;
      ApplyNone(d, Apply);
    } else {
      var ws := EventWrites(d, a[0]);
      var e := ApplyAll(d, ws, Apply);
      assert (a + b)[0] == a[0] && (a + b)[1..] == a[1..] + b;
      AlongConcat(e, a[1..], b);
      ApplyAllConcat(d, ws, Along(e, a[1..]), Apply);
    }
  }

  lemma {:induction false} AlongOne(d: Disk, e: Event)
    ensures Along(d, [e]) == EventWrites(d, e)
  {
    hide ApplyAll, EventWrites;
    assert [e][1..] == [];
  }

  lemma {:induction false} AddsAlong(d: Disk, arrivals: seq<Job>)
    ensures Along(d, AddEvents(arrivals)) == AddAllWrites(d, arrivals)
    decreases |arrivals|
  {
    hide ApplyAll, AddWrites;
    if arrivals != [] {
      var es := AddEvents(arrivals);
      assert es[0] == Add(arrivals[0]) && es[1..] == AddEvents(arrivals[1..]);
      AddsAlong(ApplyAll(d, AddWrites(d, arrivals[0]), Apply), arrivals[1..]);
    }
  }

  lemma {:induction false} RestAlong(d: Disk, id: u64, turn: Turn)
    ensures Along(d, RestEvents(id, turn)) == AddAllWrites(d, turn.arrivals) + SettleWrites(id, turn.success)
  {
    hide ApplyAll, AddAllWrites, AckWrites, NackWrites;
    var settle := if turn.success then Ack(id) else Nack(id);
    AlongConcat(d, AddEvents(turn.arrivals), [settle]);
    AddsAlong(d, turn.arrivals);
    AlongOne(ApplyAll(d, AddAllWrites(d, turn.arrivals), Apply), settle);
  }

  lemma {:induction false} TurnAlong(d: Disk, turn: Turn)
    ensures Along(d, TurnEvents(d, turn)) == TurnWrites(d, turn)
  {
    hide ApplyAll, FetchWrites, FetchResult, AddAllWrites, SettleWrites, RestEvents;
    AlongOne(d, Fetch);
    if FetchResult(d).Some? {
      var id, d1 := FetchResult(d).value.0, ApplyAll(d, FetchWrites(d), Apply);
      AlongConcat(d, [Fetch], RestEvents(id, turn));
      RestAlong(d1, id, turn);
    }
  }

  lemma {:induction false} LoopAlong(d: Disk, turns: seq<Turn>)
    ensures Along(d, LoopEvents(d, turns)) == RunWrites(d, turns)
    decreases |turns|
  {
    hide ApplyAll, TurnWrites, TurnEvents, FetchResult;
    if turns != [] {
      var e := ApplyAll(d, TurnWrites(d, turns[0]), Apply);
      TurnAlong(d, turns[0]);
      AlongConcat(d, TurnEvents(d, turns[0]), if FetchResult(d).None? then [] else LoopEvents(e, turns[1..]));
      if FetchResult(d).Some? {
        LoopAlong(e, turns[1..]);
      }
    }
  }

  // ---- the stopped process ----

  ghost function Finished(s: Sys, e: Event): Sys {
    After(s, Step(e, |EventWrites(s.disk, e)|))
  }

  /** Every event is one that the process may call for when its turn comes. */
  ghost predicate Allowed(s: Sys, es: seq<Event>)
    decreases |es|
  {
    es == [] || (Enabled(s, es[0]) && !es[0].Open? && Allowed(Finished(s, es[0]), es[1..]))
  }

  ghost function Through(s: Sys, es: seq<Event>): Sys
    decreases |es|
  {
    if es == [] then s else Through(Finished(s, es[0]), es[1..])
  }

  lemma {:induction false} AllowedConcat(s: Sys, a: seq<Event>, b: seq<Event>)
    requires Allowed(s, a) && Allowed(Through(s, a), b)
    ensures Allowed(s, a + b) && Through(s, a + b) == Through(Through(s, a), b)
    decreases |a|
  {
    hide Finished, Enabled;
    if a == [] {
      assert a + b == b;
    } else {
      assert (a + b)[0] == a[0] && (a + b)[1..] == a[1..] + b;
      AllowedConcat(Finished(s, a[0]), a[1..], b);
    }
  }

  lemma {:induction false} AllowedOne(s: Sys, e: Event)
    requires Enabled(s, e) && !e.Open?
    ensures Allowed(s, [e]) && Through(s, [e]) == Finished(s, e)
  {
    hide Finished, Enabled;
    assert [e][1..] == [];
    assert Allowed(Finished(s, e), []);
  }

  /** What an event does to the disk, and to the process when it finishes. */
  lemma {:induction false} EventOnDisk(s: Sys, e: Event, cut: nat)
    requires s.up && Enabled(s, e) && !e.Open?
    ensures After(s, Step(e, cut)).disk == ApplyAll(s.disk, Prefix(EventWrites(s.disk, e), cut), Apply)
    ensures var t := Finished(s, e);
            && t.disk == ApplyAll(s.disk, EventWrites(s.disk, e), Apply) && t.up
            && (e.Add? ==> t.held == s.held)
            && (e.Fetch? && FetchResult(s.disk).Some? ==> FetchResult(s.disk).value.0 in t.held)
  {
    hide ApplyAll, EventWrites, FetchResult;
  }

  lemma {:induction false} AddsAllowed(s: Sys, arrivals: seq<Job>)
    requires s.up
    ensures var es := AddEvents(arrivals);
            && Allowed(s, es) && Through(s, es).up && Through(s, es).held == s.held
            && Through(s, es).disk == ApplyAll(s.disk, Along(s.disk, es), Apply)
    decreases |arrivals|
  {
    hide ApplyAll, EventWrites, Finished;
    if arrivals == [] {
      ApplyNone(s.disk, Apply);
    } else {
      var e := Add(arrivals[0]);
      assert AddEvents(arrivals)[0] == e && AddEvents(arrivals)[1..] == AddEvents(arrivals[1..]);
      var t := Finished(s, e);
      EventOnDisk(s, e, 0);
      AddsAllowed(t, arrivals[1..]);
      ApplyAllConcat(s.disk, EventWrites(s.disk, e), Along(t.disk, AddEvents(arrivals[1..])), Apply);
    }
  }

  lemma {:induction false} ThroughDisk(s: Sys, es: seq<Event>)
    requires s.up && Allowed(s, es)
    ensures Through(s, es).up && Through(s, es).disk == ApplyAll(s.disk, Along(s.disk, es), Apply)
    decreases |es|
  {
    hide ApplyAll, EventWrites, Finished, Enabled;
    if es == [] {
      ApplyNone(s.disk, Apply);
    } else {
      var t := Finished(s, es[0]);
      EventOnDisk(s, es[0], 0);
      ThroughDisk(t, es[1..]);
      ApplyAllConcat(s.disk, EventWrites(s.disk, es[0]), Along(t.disk, es[1..]), Apply);
    }
  }

  lemma MaySettle(s: Sys, id: u64, success: bool)
    requires s.up && id in s.held
    ensures Enabled(s, if success then Ack(id) else Nack(id))
  {
  }

  lemma {:induction false} TurnAllowed(s: Sys, turn: Turn)
    requires s.up
    ensures Allowed(s, TurnEvents(s.disk, turn))
  {
    hide ApplyAll, EventWrites, Finished, FetchResult, Allowed, AddEvents, Through;
    AllowedOne(s, Fetch);
    EventOnDisk(s, Fetch, 0);
    if FetchResult(s.disk).Some? {
      var id, t := FetchResult(s.disk).value.0, Finished(s, Fetch);
      var settle := if turn.success then Ack(id) else Nack(id);
      AddsAllowed(t, turn.arrivals);
      MaySettle(Through(t, AddEvents(turn.arrivals)), id, turn.success);
      AllowedOne(Through(t, AddEvents(turn.arrivals)), settle);
      AllowedConcat(t, AddEvents(turn.arrivals), [settle]);
      AllowedConcat(s, [Fetch], RestEvents(id, turn));
    } else {
      assert [Fetch] + [] == [Fetch];
    }
  }

  /** The runner settles each delivery once, and it is up and holds the delivery when it does. */
  lemma {:induction false} LoopAllowed(s: Sys, turns: seq<Turn>)
    requires s.up
    ensures Allowed(s, LoopEvents(s.disk, turns))
    decreases |turns|
  {
    hide ApplyAll, TurnWrites, TurnEvents, FetchResult, Finished, Enabled, Through;
    if turns != [] {
      var es := TurnEvents(s.disk, turns[0]);
      var t := Through(s, es);
      TurnAllowed(s, turns[0]);
      ThroughDisk(s, es);
      TurnAlong(s.disk, turns[0]);
      if FetchResult(s.disk).Some? {
        LoopAllowed(t, turns[1..]);
        AllowedConcat(s, es, LoopEvents(t.disk, turns[1..]));
      } else {
        assert es + [] == es;
      }
    }
  }

  lemma {:induction false} RunLast(s: Sys, front: seq<Step>, last: Step)
    ensures Run(s, front + [last]) == After(Run(s, front), last)
    ensures Adds(front + [last]) == Adds(front) + if last.event.Add? then 1 else 0
  {
    hide After;
    assert (front + [last])[..|front|] == front;
  }

  lemma {:induction false} RunFrom(s: Sys, a: seq<Step>, b: seq<Step>)
    ensures Run(s, a + b) == Run(Run(s, a), b)
    ensures Adds(a + b) == Adds(a) + Adds(b)
    decreases |b|
  {
    hide Run, After, Adds;
    if b == [] {
      RunOneStep(Run(s, a), Step(Open, 0));
      assert a + b == a;
    } else {
      var front, last := b[..|b| - 1], b[|b| - 1];
      RunFrom(s, a, front);
      RunLast(s, a + front, last);
      RunLast(Run(s, a), front, last);
      assert a + b == a + front + [last] && b == front + [last];
    }
  }

  lemma {:induction false} RunOneStep(s: Sys, st: Step)
    ensures Run(s, [st]) == After(s, st) && Adds([st]) == if st.event.Add? then 1 else 0
    ensures Run(s, []) == s && Adds([]) == 0
  {
    hide After;
    assert [st][..0] == [];
  }

  /** The process leaves the disk that the first `cut` writes make. */
  lemma {:induction false} StoppingRun(s: Sys, es: seq<Event>, cut: nat)
    requires s.up && Allowed(s, es)
    ensures Run(s, Stopping(s.disk, es, cut)).disk == ApplyAll(s.disk, Prefix(Along(s.disk, es), cut), Apply)
    ensures cut >= |Along(s.disk, es)| ==> Run(s, Stopping(s.disk, es, cut)) == Through(s, es)
    decreases |es|
  {
    hide ApplyAll, EventWrites, Finished, After, Enabled, Run, Adds, Prefix;
    if es == [] {
      RunOneStep(s, Step(Fetch, 0));
      ApplyNone(s.disk, Apply);
      PrefixOfConcat<Write>([], [], cut);
    } else {
      var ws, t := EventWrites(s.disk, es[0]), Finished(s, es[0]);
      PrefixOfConcat(ws, Along(t.disk, es[1..]), cut);
      EventOnDisk(s, es[0], cut);
      if cut < |ws| {
        RunOneStep(s, Step(es[0], cut));
      } else {
        var first, rest := Step(es[0], |ws|), Stopping(t.disk, es[1..], cut - |ws|);
        assert t == After(s, first) by { IsFinished(s, es[0]); }
        StoppingRun(t, es[1..], cut - |ws|);
        RunOneStep(s, first);
        RunFrom(s, [first], rest);
        ApplyAllConcat(s.disk, ws, Prefix(Along(t.disk, es[1..]), cut - |ws|), Apply);
      }
    }
  }

  lemma IsFinished(s: Sys, e: Event)
    ensures Finished(s, e) == After(s, Step(e, |EventWrites(s.disk, e)|))
  {
  }

  /** The i-th event issues all its writes. */
  ghost predicate FinishesAt(s: Sys, b: seq<Step>, i: nat)
    requires i < |b|
  {
    b[i].cut >= |EventWrites(Run(s, b[..i]).disk, b[i].event)|
  }

  /** Only the last event can be unfinished, and that only if the stop comes before the last write. */
  lemma {:induction false} OnlyLastStops(s: Sys, es: seq<Event>, cut: nat, i: nat)
    requires s.up && Allowed(s, es) && i < |Stopping(s.disk, es, cut)|
    requires i == |Stopping(s.disk, es, cut)| - 1 ==> cut >= |Along(s.disk, es)|
    ensures FinishesAt(s, Stopping(s.disk, es, cut), i)
    decreases |es|
  {
    hide ApplyAll, EventWrites, Finished, After, Enabled, Run;
    var ws, t := EventWrites(s.disk, es[0]), Finished(s, es[0]);
    var b := Stopping(s.disk, es, cut);
    EventOnDisk(s, es[0], cut);
    RunOneStep(s, Step(Fetch, 0));
    if cut >= |ws| {
      var rest := Stopping(t.disk, es[1..], cut - |ws|);
      if i == 0 {
        assert b[..0] == [];
      } else {
        OnlyLastStops(t, es[1..], cut - |ws|, i - 1);
        assert b[..i] == [b[0]] + rest[..i - 1];
        assert t == After(s, b[0]) by { IsFinished(s, es[0]); }
        RunOneStep(s, b[0]);
        RunFrom(s, [b[0]], rest[..i - 1]);
      }
    }
  }

  /** The stopped process goes through the given events in order. */
  lemma {:induction false} StoppingEvents(d: Disk, es: seq<Event>, cut: nat)
    ensures var b := Stopping(d, es, cut);
            |b| <= |es| && forall i :: 0 <= i < |b| ==> b[i].event == es[i]
    decreases |es|
  {
    hide ApplyAll, EventWrites;
    if es != [] {
      var ws := EventWrites(d, es[0]);
      if cut >= |ws| {
        StoppingEvents(ApplyAll(d, ws, Apply), es[1..], cut - |ws|);
      }
    }
  }

  /** The runner's loop, stopped after any of its writes after any run: the run has gone on with the calls of
      the loop and of those who add meanwhile, in order, the last of them unfinished if need be. */
  lemma {:induction false} StoppedLoopIsRun(a: seq<Step>, turns: seq<Turn>, cut: nat)
    requires Run(START, a).up
    ensures var s := Run(START, a);
            var es := LoopEvents(s.disk, turns);
            var b := Stopping(s.disk, es, cut);
            && Run(START, a + b).disk == ApplyAll(s.disk, Prefix(RunWrites(s.disk, turns), cut), Apply)
            && |b| <= |es| && (forall i :: 0 <= i < |b| ==> b[i].event == es[i])
            && (forall i :: 0 <= i < |b| ==>
                  i < |b| - 1 || cut >= |RunWrites(s.disk, turns)| ==> FinishesAt(s, b, i))
  {
    hide ApplyAll, Run, Adds, Stopping, Along, LoopEvents, FinishesAt;
    var s := Run(START, a);
    var es := LoopEvents(s.disk, turns);
    LoopAllowed(s, turns);
    LoopAlong(s.disk, turns);
    StoppingRun(s, es, cut);
    StoppingEvents(s.disk, es, cut);
    RunFrom(START, a, Stopping(s.disk, es, cut));
    var b := Stopping(s.disk, es, cut);
    forall i | 0 <= i < |b| && (i < |b| - 1 || cut >= |RunWrites(s.disk, turns)|)
      ensures FinishesAt(s, b, i)
    {
      OnlyLastStops(s, es, cut, i);
    }
  }

  // ---- no job is lost on the way ----

  /** The ids that the loop delivers in turns that succeed. */
  ghost function Succeeded(d: Disk, turns: seq<Turn>): set<u64> {
    set j | 0 <= j < |Executed(d, turns)| && j < |turns| && turns[j].success :: Executed(d, turns)[j].0
  }

  lemma {:induction false} SucceededStep(d: Disk, turns: seq<Turn>)
    requires turns != [] && FetchResult(d).Some?
    ensures turns[0].success ==> FetchResult(d).value.0 in Succeeded(d, turns)
    ensures Succeeded(ApplyAll(d, TurnWrites(d, turns[0]), Apply), turns[1..]) <= Succeeded(d, turns)
  {
    hide ApplyAll, TurnWrites, FetchResult;
    var rest := Executed(ApplyAll(d, TurnWrites(d, turns[0]), Apply), turns[1..]);
    assert Executed(d, turns) == [FetchResult(d).value] + rest;
    assert Executed(d, turns)[0] == FetchResult(d).value;
    forall j | 0 <= j < |rest| && j < |turns[1..]| && turns[1..][j].success
      ensures rest[j].0 in Succeeded(d, turns)
    {
      assert Executed(d, turns)[j + 1] == rest[j] && turns[j + 1] == turns[1..][j];
    }
  }

  ghost predicate AcksOnly(es: seq<Event>, ids: set<u64>) {
    forall i :: 0 <= i < |es| && es[i].Ack? ==> es[i].id in ids
  }

  lemma {:induction false} AddsAckNothing(arrivals: seq<Job>)
    ensures var es := AddEvents(arrivals);
            |es| == |arrivals| && forall i :: 0 <= i < |es| ==> es[i] == Add(arrivals[i])
    decreases |arrivals|
  {
    if arrivals != [] {
      AddsAckNothing(arrivals[1..]);
    }
  }

  /** The loop acknowledges what it has executed with success, and nothing else. */
  lemma {:induction false} LoopAcks(d: Disk, turns: seq<Turn>)
    ensures AcksOnly(LoopEvents(d, turns), Succeeded(d, turns))
    decreases |turns|
  {
    hide ApplyAll, TurnWrites, TurnEvents, FetchResult, Succeeded;
    if turns != [] {
      TurnAcks(d, turns[0]);
      if FetchResult(d).Some? {
        SucceededStep(d, turns);
        LoopAcks(ApplyAll(d, TurnWrites(d, turns[0]), Apply), turns[1..]);
      }
    }
  }

  lemma {:induction false} TurnAcks(d: Disk, turn: Turn)
    ensures var es := TurnEvents(d, turn);
            forall i :: 0 <= i < |es| && es[i].Ack? ==>
              turn.success && FetchResult(d).Some? && es[i].id == FetchResult(d).value.0
  {
    hide FetchResult, AddEvents;
    AddsAckNothing(turn.arrivals);
  }

  ghost function AddsIn(es: seq<Event>): nat {
    if es == [] then 0 else (if es[0].Add? then 1 else 0) + AddsIn(es[1..])
  }

  lemma {:induction false} AddsInConcat(a: seq<Event>, b: seq<Event>)
    ensures AddsIn(a + b) == AddsIn(a) + AddsIn(b)
    decreases |a|
  {
    if a == [] {
      assert a + b == b;
    } else {
      assert (a + b)[0] == a[0] && (a + b)[1..] == a[1..] + b;
      AddsInConcat(a[1..], b);
    }
  }

  lemma {:induction false} AddsInArrivals(arrivals: seq<Job>)
    ensures AddsIn(AddEvents(arrivals)) == |arrivals|
    decreases |arrivals|
  {
    if arrivals != [] {
      assert AddEvents(arrivals)[0] == Add(arrivals[0]) && AddEvents(arrivals)[1..] == AddEvents(arrivals[1..]);
      AddsInArrivals(arrivals[1..]);
    }
  }

  lemma {:induction false} LoopAdds(d: Disk, turns: seq<Turn>)
    ensures AddsIn(LoopEvents(d, turns)) <= Arrived(turns)
    decreases |turns|
  {
    hide ApplyAll, TurnWrites, FetchResult, AddEvents;
    if turns != [] {
      var e := ApplyAll(d, TurnWrites(d, turns[0]), Apply);
      TurnAdds(d, turns[0]);
      AddsInConcat(TurnEvents(d, turns[0]), if FetchResult(d).None? then [] else LoopEvents(e, turns[1..]));
      if FetchResult(d).Some? {
        LoopAdds(e, turns[1..]);
      }
    }
  }

  lemma {:induction false} TurnAdds(d: Disk, turn: Turn)
    ensures AddsIn(TurnEvents(d, turn)) <= |turn.arrivals|
  {
    hide FetchResult, AddEvents;
    assert [Fetch][1..] == [];
    if FetchResult(d).Some? {
      var id := FetchResult(d).value.0;
      var settle := if turn.success then Ack(id) else Nack(id);
      assert [settle][1..] == [];
      AddsInArrivals(turn.arrivals);
      AddsInConcat(AddEvents(turn.arrivals), [settle]);
      AddsInConcat([Fetch], RestEvents(id, turn));
    }
  }

  lemma {:induction false} StoppingAdds(d: Disk, es: seq<Event>, cut: nat)
    ensures Adds(Stopping(d, es, cut)) <= AddsIn(es)
    decreases |es|
  {
    hide ApplyAll, EventWrites, Adds, After, Run;
    if es == [] {
      RunOneStep(START, Step(Fetch, 0));
    } else {
      var ws := EventWrites(d, es[0]);
      var first := Step(es[0], if cut < |ws| then cut else |ws|);
      RunOneStep(START, first);
      if cut >= |ws| {
        var e := ApplyAll(d, ws, Apply);
        StoppingAdds(e, es[1..], cut - |ws|);
        RunFrom(START, [first], Stopping(e, es[1..], cut - |ws|));
      }
    }
  }

  /** The stopped loop as a run that acknowledges nothing but what the loop executes with success. */
  lemma {:induction false} LoopRun(a: seq<Step>, turns: seq<Turn>, cut: nat, i: u64) returns (b: seq<Step>)
    requires Run(START, a).up && Adds(a) + Arrived(turns) < U64_MAX
    requires i !in Succeeded(Run(START, a).disk, turns)
    ensures var d := Run(START, a).disk;
            && b == Stopping(d, LoopEvents(d, turns), cut) && Adds(a + b) < U64_MAX
            && Run(START, a + b).disk == ApplyAll(d, Prefix(RunWrites(d, turns), cut), Apply)
    ensures forall j :: 0 <= j < |b| ==> b[j].event != Ack(i)
  {
    hide ApplyAll, Run, Adds, Stopping, LoopEvents, RunWrites, Succeeded, FinishesAt;
    var d := Run(START, a).disk;
    var es := LoopEvents(d, turns);
    b := Stopping(d, es, cut);
    StoppedLoopIsRun(a, turns, cut);
    LoopAcks(d, turns);
    LoopAdds(d, turns);
    StoppingAdds(d, es, cut);
    RunFrom(START, a, b);
  }

  /** Wherever the loop is stopped, every job that was due before it, whether the loop has delivered it or not,
      waits with its payload, unless it is one that the loop executes with success. */
  lemma {:induction false} StoppedLoopKeepsJobs(a: seq<Step>, turns: seq<Turn>, cut: nat, i: u64)
    requires Run(START, a).up && Adds(a) + Arrived(turns) < U64_MAX
    requires var s := Run(START, a); i in s.live && i !in Succeeded(s.disk, turns)
    ensures var s := Run(START, a);
            Stored(ApplyAll(s.disk, Prefix(RunWrites(s.disk, turns), cut), Apply), i, s.live[i])
  {
    hide ApplyAll, Run, Adds, Stopping, LoopEvents, RunWrites, Succeeded, Inv;
    var b := LoopRun(a, turns, cut, i);
    LiveStays(a, b, i);
    NoJobLost(a + b);
    LiveStored(Run(START, a + b), i);
  }

  /** So does every job that has been added meanwhile. */
  lemma {:induction false} StoppedLoopKeepsArrivals(a: seq<Step>, turns: seq<Turn>, cut: nat, j: nat)
    requires Run(START, a).up && Adds(a) + Arrived(turns) < U64_MAX
    requires var s := Run(START, a);
             var b := Stopping(s.disk, LoopEvents(s.disk, turns), cut);
             && j < |b| && b[j].event.Add? && FinishesAt(s, b, j)
             && NextId(Run(s, b[..j]).disk) !in Succeeded(s.disk, turns)
    ensures var s := Run(START, a);
            var b := Stopping(s.disk, LoopEvents(s.disk, turns), cut);
            Stored(ApplyAll(s.disk, Prefix(RunWrites(s.disk, turns), cut), Apply),
                   NextId(Run(s, b[..j]).disk), b[j].event.job)
  {
    hide ApplyAll, Run, Adds, Stopping, LoopEvents, RunWrites, Succeeded, Inv, NextId, AddWrites, Allowed;
    var s := Run(START, a);
    var es := LoopEvents(s.disk, turns);
    var all := Stopping(s.disk, es, cut);
    var m := Run(s, all[..j]);
    var i := NextId(m.disk);
    var b := LoopRun(a, turns, cut, i);
    LoopAllowed(s, turns);
    UpBefore(s, es, cut, j);
    assert all[..j + 1] == all[..j] + [all[j]] && all == all[..j + 1] + all[j + 1..];
    RunLast(s, all[..j], all[j]);
    RunFrom(START, a, all[..j + 1]);
    assert a + all == (a + all[..j + 1]) + all[j + 1..];
    LiveStays(a + all[..j + 1], all[j + 1..], i);
    NoJobLost(a + all);
    LiveStored(Run(START, a + all), i);
  }

  lemma {:induction false} UpBefore(s: Sys, es: seq<Event>, cut: nat, j: nat)
    requires s.up && Allowed(s, es) && j < |Stopping(s.disk, es, cut)|
    ensures Run(s, Stopping(s.disk, es, cut)[..j]).up
    decreases |es|
  {
    hide ApplyAll, EventWrites, Finished, After, Enabled, Run;
    var ws, t := EventWrites(s.disk, es[0]), Finished(s, es[0]);
    var b := Stopping(s.disk, es, cut);
    EventOnDisk(s, es[0], cut);
    RunOneStep(s, Step(Fetch, 0));
    if j == 0 {
      assert b[..0] == [];
    } else {
      var rest := Stopping(t.disk, es[1..], cut - |ws|);
      UpBefore(t, es[1..], cut - |ws|, j - 1);
      assert b[..j] == [b[0]] + rest[..j - 1];
      assert t == After(s, b[0]) by { IsFinished(s, es[0]); }
      RunOneStep(s, b[0]);
      RunFrom(s, [b[0]], rest[..j - 1]);
    }
  }
}
