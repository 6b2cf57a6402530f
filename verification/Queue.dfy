/** The queue object and the inner loop of its runner. */
module Queue {
  import opened Bytes
  import opened QueueDisk
  import opened QueueSafety
  import opened QueueRunner
  import opened Wrappers
  import opened Writes

  class DiskPersistentQueue {
    var next: Option<seq<byte>>
    var pending: set<Key>
    var inflight: set<Key>
    var jobs: map<Key, Job>

    /** Every tree write issued by this process, in order. */
    ghost var log: seq<Write>

    function Content(): Disk
      reads this
    {
      Disk(next, pending, inflight, jobs)
    }

    twostate predicate Issued(ws: seq<Write>)
      reads this
    {
      Content() == ApplyAll(old(Content()), ws, Apply) && log == old(log) + ws
    }

    /** Opening recovers: every sound inflight marker is pending again. */
    constructor Open(d: Disk)
      ensures Content() == ApplyAll(d, RecoverWrites(d), Apply) && log == RecoverWrites(d)
      ensures inflight == set k | k in d.inflight && |k| != 8
    {
      next, pending, inflight, jobs := d.next, d.pending, d.inflight, d.jobs;
      log := [];
      new;
      var _ := Recover();
    }

    /** The one place that touches the trees, one write at a time. */
    method Issue(w: Write)
      modifies this
      ensures Issued([w])
      ensures Content() == Apply(old(Content()), w)
    {
      match w {
        case PutNext(v) => next := Some(v);
        case PutJob(k, j) => jobs := jobs[k := j];
        case DelJob(k) => jobs := jobs - {k};
        case PutPending(k) => pending := pending + {k};
        case DelPending(k) => pending := pending - {k};
        case PutInflight(k) => inflight := inflight + {k};
        case DelInflight(k) => inflight := inflight - {k};
      }
      log := log + [w];
      ApplyOne(old(Content()), w, Apply);
    }

    method NextJobId() returns (id: u64)
      modifies this
      ensures id == old(NextId(Content()))
      ensures Issued([PutNext(Be64(SatInc(id)))])
    {
      id := if next.Some? && BytesToU64(next.value).Some? then BytesToU64(next.value).value else 1;
      Issue(PutNext(Be64(SatInc(id))));
    }

    method Add(job: Job) returns (id: u64)
      modifies this
      ensures id == old(NextId(Content()))
      ensures Issued(AddWrites(old(Content()), job))
    {
      hide Be64, ApplyAll, NextId;
      ghost var d := Content();
      id := NextJobId();
      Issue(PutJob(Be64(id), job));
      Issue(PutPending(Be64(id)));
      PrefixThree(d, PutNext(Be64(SatInc(id))), PutJob(Be64(id), job), PutPending(Be64(id)), 3, Apply);
      ApplyOne(d, PutNext(Be64(SatInc(id))), Apply);
    }

    method Fetch() returns (r: Option<(u64, Job)>)
      modifies this
      ensures r == old(FetchResult(Content()))
      ensures Issued(FetchWrites(old(Content())))
    {
      hide Be64, FromBe64, ApplyAll, Least;
      ghost var d := Content();
      if pending == {} {
        FetchNothing(d, 0);
        return None;
      }
      var k := Least(pending);
      if |k| != 8 {
        Issue(DelPending(k));
        return None;
      }
      var id := FromBe64(k);
      KeyOf(id, k);
      Issue(PutInflight(Be64(id)));
      Issue(DelPending(Be64(id)));
      ApplyTwo(d, PutInflight(k), DelPending(k), Apply);
      ghost var d2 := Content();
      if Be64(id) !in jobs {
        Issue(DelInflight(Be64(id)));
        Issue(DelPending(Be64(id)));
        ApplyTwo(d2, DelInflight(k), DelPending(k), Apply);
        ApplyAllConcat(d, [PutInflight(k), DelPending(k)], [DelInflight(k), DelPending(k)], Apply);
        return None;
      }
      assert FetchWrites(d) == [PutInflight(k), DelPending(k)];
      r := Some((id, jobs[Be64(id)]));
    }

    method Ack(id: u64)
      modifies this
      ensures Issued(AckWrites(id))
    {
      Issue(DelInflight(Be64(id)));
      Issue(DelJob(Be64(id)));
      ApplyTwo(old(Content()), DelInflight(Be64(id)), DelJob(Be64(id)), Apply);
    }

    method Nack(id: u64)
      modifies this
      ensures Issued(NackWrites(id))
    {
      Issue(PutPending(Be64(id)));
      Issue(DelInflight(Be64(id)));
      ApplyTwo(old(Content()), PutPending(Be64(id)), DelInflight(Be64(id)), Apply);
    }

    method Recover() returns (count: nat)
      modifies this
      ensures Issued(RecoverWrites(old(Content())))
      ensures count == |set k | k in old(inflight) && |k| == 8|
      ensures inflight == set k | k in old(inflight) && |k| != 8
    {
      hide ApplyAll, Ascending, MoveWrites;
      ghost var d0, log0 := Content(), log;
      var keys := Recoverable(Content());
      ghost var done: seq<Write> := [];
      ApplyOne(d0, DelPending([]), Apply);
      for i := 0 to |keys|
        invariant Content() == ApplyAll(d0, done, Apply) && log == log0 + done
        invariant RecoverWrites(d0) == done + MoveWrites(keys[i..])
      {
        var k := keys[i];
        MoveOne(d0, done, Content(), keys, i);
        Issue(PutPending(k));
        Issue(DelInflight(k));
        done := done + [PutPending(k), DelInflight(k)];
      }
      NoMoreMoves(keys);
      assert done == RecoverWrites(d0) by { assert done + [] == done; }
      RecoverEffect(d0, |done|);
      count := |keys|;
    }

    /** Jobs added by other clients, one after the other. */
    method AddAll(arrivals: seq<Job>)
      modifies this
      ensures Issued(AddAllWrites(old(Content()), arrivals))
    {
      hide ApplyAll, AddWrites, AddAllWrites;
      ghost var d0, log0 := Content(), log;
      ghost var done: seq<Write> := [];
      ApplyNone(d0, Apply);
      assert arrivals[0..] == arrivals;
      for i := 0 to |arrivals|
        invariant Content() == ApplyAll(d0, done, Apply) && log == log0 + done
        invariant AddAllWrites(d0, arrivals) == done + AddAllWrites(Content(), arrivals[i..])
      {
        ghost var d := Content();
        AddAllStep(d0, done, d, arrivals, i);
        var _ := Add(arrivals[i]);
        done := done + AddWrites(d, arrivals[i]);
      }
      AddAllDone(Content(), arrivals);
      assert done + [] == done;
    }

    /** One turn of the runner: fetch, and if that delivers a job, let in what arrives while the executor is at
        work and settle the job as the executor decides. */
    method RunOne(turn: Turn) returns (r: Option<(u64, Job)>)
      modifies this
      ensures r == old(FetchResult(Content()))
      ensures Issued(TurnWrites(old(Content()), turn))
    {
      hide Be64, FromBe64, ApplyAll, FetchWrites, FetchResult, AddAllWrites, AckWrites, NackWrites;
      ghost var d, log0 := Content(), log;
      r := Fetch();
      if r.None? {
        return;
      }
      var id := r.value.0;
      ghost var d1 := Content();
      AddAll(turn.arrivals);
      ghost var adds := AddAllWrites(d1, turn.arrivals);
      if turn.success {
        Ack(id);
      } else {
        Nack(id);
      }
      ApplyAllConcat(d, FetchWrites(d), adds, Apply);
      ApplyAllConcat(d, FetchWrites(d) + adds, SettleWrites(id, turn.success), Apply);
      assert log == log0 + (FetchWrites(d) + adds + SettleWrites(id, turn.success));
    }

    /** The runner's inner loop. `turns` says how the executor's successive calls end and what comes in
        meanwhile; the loop stops when a fetch delivers nothing, or with the executor still at work on the next
        job. */
    method RunInner(turns: seq<Turn>) returns (executed: seq<(u64, Job)>)
      modifies this
      ensures Issued(RunWrites(old(Content()), turns))
      ensures executed == Executed(old(Content()), turns)
    {
      hide ApplyAll, TurnWrites, RunWrites, Executed, FetchResult;
      executed := [];
      var n := 0;
      ghost var d0, log0 := Content(), log;
      ghost var done: seq<Write> := [];
      ApplyNone(d0, Apply);
      assert turns[0..] == turns;
      while n < |turns|
        invariant 0 <= n <= |turns|
        invariant Content() == ApplyAll(d0, done, Apply) && log == log0 + done
        invariant RunWrites(d0, turns) == done + RunWrites(Content(), turns[n..])
        invariant Executed(d0, turns) == executed + Executed(Content(), turns[n..])
      {
        ghost var d := Content();
        RunStep(d0, done, d, turns, n);
        var r := RunOne(turns[n]);
        done := done + TurnWrites(d, turns[n]);
        if r.None? {
          assert executed + [] == executed && done + [] == done;
          return;
        }
        executed := executed + [r.value];
        n := n + 1;
      }
      RunDone(Content(), turns);
      assert executed + [] == executed && done + [] == done;
    }
  }

  // ---- steps of the proofs above ----

  lemma {:induction false} MoveOne(d0: Disk, done: seq<Write>, d: Disk, keys: seq<Key>, i: nat)
    requires i < |keys| && d == ApplyAll(d0, done, Apply)
    ensures var two := [PutPending(keys[i]), DelInflight(keys[i])];
            && Apply(Apply(d, two[0]), two[1]) == ApplyAll(d0, done + two, Apply)
            && done + MoveWrites(keys[i..]) == done + two + MoveWrites(keys[i + 1..])
  {
    hide ApplyAll;
    var k := keys[i];
    assert keys[i..][0] == k && keys[i..][1..] == keys[i + 1..];
    ApplyTwo(d, PutPending(k), DelInflight(k), Apply);
    ApplyAllConcat(d0, done, [PutPending(k), DelInflight(k)], Apply);
  }

  lemma NoMoreMoves(keys: seq<Key>)
    ensures MoveWrites(keys[|keys|..]) == []
  {
  }

  lemma {:induction false} AddAllStep(d0: Disk, done: seq<Write>, d: Disk, arrivals: seq<Job>, i: nat)
    requires i < |arrivals| && d == ApplyAll(d0, done, Apply)
    ensures var ws := AddWrites(d, arrivals[i]);
            var e := ApplyAll(d, ws, Apply);
            && e == ApplyAll(d0, done + ws, Apply)
            && done + AddAllWrites(d, arrivals[i..]) == done + ws + AddAllWrites(e, arrivals[i + 1..])
  {
    hide ApplyAll, AddWrites;
    var ws := AddWrites(d, arrivals[i]);
    assert arrivals[i..][0] == arrivals[i] && arrivals[i..][1..] == arrivals[i + 1..];
    ApplyAllConcat(d0, done, ws, Apply);
    Regrouped(done, ws, AddAllWrites(ApplyAll(d, ws, Apply), arrivals[i + 1..]));
  }

  lemma {:induction false} AddAllDone(d: Disk, arrivals: seq<Job>)
    ensures AddAllWrites(d, arrivals[|arrivals|..]) == []
  {
  }

  lemma {:induction false} Regrouped(a: seq<Write>, b: seq<Write>, c: seq<Write>)
    ensures a + (b + c) == a + b + c
  {
  }

  lemma {:induction false} RunStep(d0: Disk, done: seq<Write>, d: Disk, turns: seq<Turn>, n: nat)
    requires n < |turns| && d == ApplyAll(d0, done, Apply)
    ensures var ws := TurnWrites(d, turns[n]);
            var e := ApplyAll(d, ws, Apply);
            var ends := FetchResult(d).None?;
            && e == ApplyAll(d0, done + ws, Apply)
            && done + RunWrites(d, turns[n..]) == done + ws + (if ends then [] else RunWrites(e, turns[n + 1..]))
            && Executed(d, turns[n..]) == (if ends then [] else [FetchResult(d).value] + Executed(e, turns[n + 1..]))
  {
    hide ApplyAll, TurnWrites, FetchResult;
    var ws := TurnWrites(d, turns[n]);
    assert turns[n..][0] == turns[n] && turns[n..][1..] == turns[n + 1..];
    ApplyAllConcat(d0, done, ws, Apply);
    Regrouped(done, ws, if FetchResult(d).None? then [] else RunWrites(ApplyAll(d, ws, Apply), turns[n + 1..]));
  }

  lemma {:induction false} RunDone(d: Disk, turns: seq<Turn>)
    ensures RunWrites(d, turns[|turns|..]) == [] && Executed(d, turns[|turns|..]) == []
  {
  }
}
