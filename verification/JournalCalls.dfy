/** Calls that consist of several events. Stopped after any of its writes, such a call has gone through its
    first events, of which the last at most is unfinished; so what is proved of runs can be applied to it. */
module JournalCalls {
  import opened Bytes
  import opened JournalDisk
  import opened JournalSafety
  import opened JournalEviction
  import opened JournalBudget
  import opened Trees
  import opened Writes

  // ---- the writes of a call ----

  /** The writes of an append that is followed by n turns of eviction. */
  function CallWrites(d: Disk, max: u64, id: Key, p: Payload, n: nat): seq<Write> {
    var ws := AppendWrites(d, id, p);
    ws + RoundsWrites(ApplyAll(d, ws, Apply), max, n)
  }

  lemma {:induction false} RoundsAreWrites(d: Disk, max: u64, n: nat)
    ensures Rounds(d, max, n) == ApplyAll(d, RoundsWrites(d, max, n), Apply)
    decreases n
  {
    hide ApplyAll, EvictRoundWrites;
    if n == 0 {
      ApplyNone(d, Apply);
    } else {
      RoundsAreWrites(Round(d, max), max, n - 1);
      ApplyAllConcat(d, EvictRoundWrites(d, max), RoundsWrites(Round(d, max), max, n - 1), Apply);
    }
  }

  lemma {:induction false} CallEffect(d: Disk, max: u64, id: Key, p: Payload, n: nat)
    ensures var added := ApplyAll(d, AppendWrites(d, id, p), Apply);
            ApplyAll(d, CallWrites(d, max, id, p, n), Apply) == Rounds(added, max, n)
  {
    hide ApplyAll, AppendWrites, RoundsWrites, Rounds;
    var added := ApplyAll(d, AppendWrites(d, id, p), Apply);
    RoundsAreWrites(added, max, n);
    ApplyAllConcat(d, AppendWrites(d, id, p), RoundsWrites(added, max, n), Apply);
  }

  // ---- its events ----

  function Turns(n: nat): seq<Event> {
    if n == 0 then [] else [EvictRound] + Turns(n - 1)
  }

  function CallEvents(id: Key, p: Payload, n: nat): seq<Event> {
    [Append(id, p)] + Turns(n)
  }

  /** The writes of events that follow one another. */
  function Along(d: Disk, max: u64, es: seq<Event>): seq<Write>
    decreases |es|
  {
    if es == [] then []
    else
      var ws := EventWrites(d, max, es[0]);
      ws + Along(ApplyAll(d, ws, Apply), max, es[1..])
  }

  /** The events that a process goes through which stops after `cut` writes: all of them finished, up to the
      one that the stop falls in. */
  function Stopping(d: Disk, max: u64, es: seq<Event>, cut: nat): seq<Step>
    decreases |es|
  {
    if es == [] then []
    else
      var ws := EventWrites(d, max, es[0]);
      if cut < |ws| then [Step(es[0], cut)]
      else [Step(es[0], |ws|)] + Stopping(ApplyAll(d, ws, Apply), max, es[1..], cut - |ws|)
  }

  lemma {:induction false} TurnsAlong(d: Disk, max: u64, n: nat)
    ensures Along(d, max, Turns(n)) == RoundsWrites(d, max, n)
    decreases n
  {
    hide ApplyAll, EvictRoundWrites;
    if n > 0 {
      assert Turns(n)[0] == EvictRound && Turns(n)[1..] == Turns(n - 1);
      TurnsAlong(Round(d, max), max, n - 1);
    }
  }

  lemma {:induction false} CallAlong(d: Disk, max: u64, id: Key, p: Payload, n: nat)
    ensures Along(d, max, CallEvents(id, p, n)) == CallWrites(d, max, id, p, n)
  {
    hide ApplyAll, AppendWrites, RoundsWrites, Turns;
    var es := CallEvents(id, p, n);
    assert es[0] == Append(id, p) && es[1..] == Turns(n);
    TurnsAlong(ApplyAll(d, AppendWrites(d, id, p), Apply), max, n);
  }

  // ---- the stopped process ----

  lemma {:induction false} FinishedEvent(d: Disk, max: u64, e: Event, cut: nat)
    ensures After(d, max, Step(e, cut)) == ApplyAll(d, Prefix(EventWrites(d, max, e), cut), Apply)
    ensures var ws := EventWrites(d, max, e);
            After(d, max, Step(e, |ws|)) == ApplyAll(d, ws, Apply) && !Stopped(d, max, Step(e, |ws|))
  {
    hide EventWrites, ApplyAll;
  }

  /** An event and what follows it, as a run. */
  lemma {:induction false} RunFirst(d: Disk, max: u64, s: Step, rest: seq<Step>)
    ensures Run(d, max, [s] + rest) == Run(After(d, max, s), max, rest)
  {
    hide Run, After, Appends;
    RunFrom(d, max, [s], rest);
    RunOne(d, max, s);
  }

  /** The process leaves the disk that the first `cut` writes make. */
  lemma {:induction false} StoppingRun(d: Disk, max: u64, es: seq<Event>, cut: nat)
    ensures Run(d, max, Stopping(d, max, es, cut)) == ApplyAll(d, Prefix(Along(d, max, es), cut), Apply)
    decreases |es|
  {
    hide ApplyAll, Run, After, EventWrites, Prefix;
    if es == [] {
      RunNothing(d, max);
      ApplyNone(d, Apply);
      PrefixOfConcat<Write>([], [], cut);
    } else {
      var ws := EventWrites(d, max, es[0]);
      var e := ApplyAll(d, ws, Apply);
      PrefixOfConcat(ws, Along(e, max, es[1..]), cut);
      FinishedEvent(d, max, es[0], cut);
      if cut < |ws| {
        RunOne(d, max, Step(es[0], cut));
      } else {
        StoppingRun(e, max, es[1..], cut - |ws|);
        RunFirst(d, max, Step(es[0], |ws|), Stopping(e, max, es[1..], cut - |ws|));
        ApplyAllConcat(d, ws, Prefix(Along(e, max, es[1..]), cut - |ws|), Apply);
      }
    }
  }

  /** It goes through the given events in order. */
  lemma {:induction false} StoppingEvents(d: Disk, max: u64, es: seq<Event>, cut: nat)
    ensures var b := Stopping(d, max, es, cut);
            && |b| <= |es| && (es != [] ==> b != [])
            && forall i :: 0 <= i < |b| ==> b[i].event == es[i]
    decreases |es|
  {
    hide ApplyAll, EventWrites;
    if es != [] {
      var ws := EventWrites(d, max, es[0]);
      if cut >= |ws| {
        StoppingEvents(ApplyAll(d, ws, Apply), max, es[1..], cut - |ws|);
      }
    }
  }

  /** The i-th event finishes. */
  ghost predicate FinishesAt(d: Disk, max: u64, b: seq<Step>, i: nat)
    requires i < |b|
  {
    !Stopped(Run(d, max, b[..i]), max, b[i])
  }

  /** Only the last event can be unfinished, and that only if the stop comes before the last write. */
  lemma {:induction false} OnlyLastStops(d: Disk, max: u64, es: seq<Event>, cut: nat, i: nat)
    requires i < |Stopping(d, max, es, cut)|
    requires i == |Stopping(d, max, es, cut)| - 1 ==> cut >= |Along(d, max, es)|
    ensures FinishesAt(d, max, Stopping(d, max, es, cut), i)
    decreases |es|
  {
    hide ApplyAll, EventWrites, Run, After;
    var ws := EventWrites(d, max, es[0]);
    var e := ApplyAll(d, ws, Apply);
    var b := Stopping(d, max, es, cut);
    FinishedEvent(d, max, es[0], cut);
    RunNothing(d, max);
    if cut >= |ws| {
      var rest := Stopping(e, max, es[1..], cut - |ws|);
      if i == 0 {
        assert b[..0] == [];
      } else {
        OnlyLastStops(e, max, es[1..], cut - |ws|, i - 1);
        assert b[..i] == [b[0]] + rest[..i - 1];
        RunFirst(d, max, b[0], rest[..i - 1]);
      }
    }
  }

  /** A call of append with the eviction that follows it, stopped after any of its writes after any run: the
      run has gone on with that append, if need be unfinished, and with turns of eviction. */
  lemma {:induction false} StoppedCallIsRun(max: u64, a: seq<Step>, id: Key, p: Payload, n: nat, cut: nat)
    ensures var d := Run(EMPTY_DISK, max, a);
            var b := Stopping(d, max, CallEvents(id, p, n), cut);
            && Run(EMPTY_DISK, max, a + b) == ApplyAll(d, Prefix(CallWrites(d, max, id, p, n), cut), Apply)
            && 0 < |b| <= n + 1 && b[0].event == Append(id, p)
            && (forall i :: 0 < i < |b| ==> b[i].event == EvictRound)
            && (forall i :: 0 <= i < |b| ==>
                  i < |b| - 1 || cut >= |CallWrites(d, max, id, p, n)| ==> FinishesAt(d, max, b, i))
  {
    hide ApplyAll, Run, Appends, CallWrites, Stopping, Along, FinishesAt;
    var d, es := Run(EMPTY_DISK, max, a), CallEvents(id, p, n);
    var b := Stopping(d, max, es, cut);
    CallAlong(d, max, id, p, n);
    StoppingRun(d, max, es, cut);
    StoppingEvents(d, max, es, cut);
    RunFrom(EMPTY_DISK, max, a, b);
    CallEvent(id, p, n);
    forall i | 0 <= i < |b| && (i < |b| - 1 || cut >= |Along(d, max, es)|)
      ensures FinishesAt(d, max, b, i)
    {
      OnlyLastStops(d, max, es, cut, i);
    }
  }

  lemma {:induction false} CallEvent(id: Key, p: Payload, n: nat)
    ensures var es := CallEvents(id, p, n);
            |es| == n + 1 && es[0] == Append(id, p) && forall i :: 0 < i < |es| ==> es[i] == EvictRound
    decreases n
  {
    TurnsAll(n);
  }

  lemma {:induction false} TurnsAll(n: nat)
    ensures |Turns(n)| == n && forall i :: 0 <= i < n ==> Turns(n)[i] == EvictRound
    decreases n
  {
    if n > 0 {
      TurnsAll(n - 1);
    }
  }

  /** So it leaves a safe disk, and so does a stopped loop of evictions. */
  lemma {:induction false} StoppedCallSafe(max: u64, a: seq<Step>, id: Key, p: Payload, n: nat, cut: nat)
    requires Appends(a) + 1 < U64_LIMIT
    ensures var d := Run(EMPTY_DISK, max, a);
            && Safe(ApplyAll(d, Prefix(CallWrites(d, max, id, p, n), cut), Apply))
            && Safe(ApplyAll(d, Prefix(RoundsWrites(d, max, n), cut), Apply))
  {
    hide ApplyAll, Run, Appends, CallWrites, RoundsWrites, Safe, NextAtMost, Stopping, CallEvents, Turns, Called;
    hide SmallAppends, Stops;
    var d := Run(EMPTY_DISK, max, a);
    StoppedCallIsRun(max, a, id, p, n, cut);
    CallCounts(max, a, id, p, n, cut, |p|);
    CrashSafety(max, a + Stopping(d, max, CallEvents(id, p, n), cut));
    TurnsAlong(d, max, n);
    StoppingRun(d, max, Turns(n), cut);
    TurnsCounts(max, a, n, cut, 0);
    RunFrom(EMPTY_DISK, max, a, Stopping(d, max, Turns(n), cut));
    CrashSafety(max, a + Stopping(d, max, Turns(n), cut));
  }

  // ---- what the counter lacks after it ----

  lemma {:induction false} TurnsCounts(max: u64, a: seq<Step>, n: nat, cut: nat, m: nat)
    ensures var d := Run(EMPTY_DISK, max, a);
            var b := Stopping(d, max, Turns(n), cut);
            && Appends(a + b) == Appends(a) && Called(a + b) == Called(a)
            && (SmallAppends(a, m) ==> SmallAppends(a + b, m))
            && Stops(max, a + b) <= Stops(max, a) + (if cut < |Along(d, max, Turns(n))| then 1 else 0)
    decreases n
  {
    hide ApplyAll, Run, After, Appends, Called, SmallAppends, Stops, EventWrites, Stopped;
    var d := Run(EMPTY_DISK, max, a);
    if n == 0 {
      assert a + [] == a;
    } else {
      assert Turns(n)[0] == EvictRound && Turns(n)[1..] == Turns(n - 1);
      var ws := EventWrites(d, max, EvictRound);
      var first := Step(EvictRound, if cut < |ws| then cut else |ws|);
      CountsSnoc(max, a, first, m);
      FinishedEvent(d, max, EvictRound, cut);
      SmallMore(a, first, m);
      if cut >= |ws| {
        RunLast(EMPTY_DISK, max, a, first);
        TurnsCounts(max, a + [first], n - 1, cut - |ws|, m);
        Regroup(a, first, Stopping(ApplyAll(d, ws, Apply), max, Turns(n - 1), cut - |ws|));
      }
    }
  }

  lemma {:induction false} Regroup(a: seq<Step>, s: Step, rest: seq<Step>)
    ensures a + ([s] + rest) == (a + [s]) + rest
  {
  }

  lemma {:induction false} SmallMore(a: seq<Step>, s: Step, m: nat)
    requires s.event.Append? ==> |s.event.payload| <= m
    ensures SmallAppends(a, m) ==> SmallAppends(a + [s], m)
  {
  }

  lemma {:induction false} CallCounts(max: u64, a: seq<Step>, id: Key, p: Payload, n: nat, cut: nat, m: nat)
    requires |p| <= m
    ensures var d := Run(EMPTY_DISK, max, a);
            var b := Stopping(d, max, CallEvents(id, p, n), cut);
            && Appends(a + b) == Appends(a) + 1 && Called(a + b) == Called(a) + |p|
            && (SmallAppends(a, m) ==> SmallAppends(a + b, m))
            && Stops(max, a + b) <= Stops(max, a) + (if cut < |CallWrites(d, max, id, p, n)| then 1 else 0)
  {
    hide ApplyAll, Run, After, Appends, Called, SmallAppends, Stops, AppendWrites, Stopped, Turns, RoundsWrites;
    var d, es := Run(EMPTY_DISK, max, a), CallEvents(id, p, n);
    assert es[0] == Append(id, p) && es[1..] == Turns(n);
    var ws := AppendWrites(d, id, p);
    var first := Step(Append(id, p), if cut < |ws| then cut else |ws|);
    CountsSnoc(max, a, first, m);
    FinishedEvent(d, max, Append(id, p), cut);
    SmallMore(a, first, m);
    if cut >= |ws| {
      var e := ApplyAll(d, ws, Apply);
      RunLast(EMPTY_DISK, max, a, first);
      TurnsCounts(max, a + [first], n, cut - |ws|, m);
      TurnsAlong(e, max, n);
      Regroup(a, first, Stopping(e, max, Turns(n), cut - |ws|));
    }
  }

  /** After any run of appends of at most `m` bytes each, a further call that is stopped anywhere leaves the
      counter behind by at most `m` bytes more, and one that has issued its last write by nothing more. */
  lemma {:induction false} StoppedCallGap(max: u64, a: seq<Step>, id: Key, p: Payload, n: nat, cut: nat, m: nat)
    requires Appends(a) + 1 < U64_LIMIT && Called(a) + |p| < I64_LIMIT
    requires SmallAppends(a, m) && |p| <= m
    ensures var d := Run(EMPTY_DISK, max, a);
            var ws := CallWrites(d, max, id, p, n);
            0 <= Gap(ApplyAll(d, Prefix(ws, cut), Apply)) <= m * (Stops(max, a) + if cut < |ws| then 1 else 0)
  {
    hide ApplyAll, Run, Appends, Called, SmallAppends, Stops, CallWrites, Stopping, CallEvents, Gap, Small, Sum;
    var d := Run(EMPTY_DISK, max, a);
    var b := Stopping(d, max, CallEvents(id, p, n), cut);
    StoppedCallIsRun(max, a, id, p, n, cut);
    CallCounts(max, a, id, p, n, cut, m);
    GapBounded(max, a + b, m);
    Monotone(m, Stops(max, a + b), Stops(max, a) + if cut < |CallWrites(d, max, id, p, n)| then 1 else 0);
  }

  lemma {:induction false} Monotone(m: nat, x: nat, y: nat)
    requires x <= y
    ensures m * x <= m * y
  {
  }

  // ---- what is pending after it ----

  /** A stopped loop of evictions has taken nothing that the finished one leaves. */
  lemma {:induction false} StoppedTurnsKeep(d: Disk, max: u64, n: nat, cut: nat)
    requires Safe(d)
    ensures var e, f := ApplyAll(d, Prefix(RoundsWrites(d, max, n), cut), Apply), Rounds(d, max, n);
            && (forall k :: k in Entries(e) ==> k in Entries(d) && e.pending[k] == d.pending[k])
            && (forall k :: k in Entries(f) ==> k in Entries(e) && e.pending[k] == f.pending[k])
    decreases n
  {
    hide ApplyAll, EvictRoundWrites, Round, Safe, Entries;
    if n == 0 {
      ApplyNone(d, Apply);
      PrefixOfConcat<Write>([], [], cut);
    } else {
      var ws, m := EvictRoundWrites(d, max), Round(d, max);
      var rest := RoundsWrites(m, max, n - 1);
      PrefixOfConcat(ws, rest, cut);
      RoundEffect(d, max);
      TurnKeeps(d, max, cut);
      StoppedTurnsKeep(m, max, n - 1, if cut < |ws| then 0 else cut - |ws|);
      if cut >= |ws| {
        ApplyAllConcat(d, ws, Prefix(rest, cut - |ws|), Apply);
        assert m == ApplyAll(d, ws, Apply) by { TurnFinished(d, max); }
      }
    }
  }

  lemma {:induction false} TurnFinished(d: Disk, max: u64)
    ensures Round(d, max) == ApplyAll(d, EvictRoundWrites(d, max), Apply)
  {
    hide ApplyAll, EvictRoundWrites;
  }

  lemma {:induction false} TurnKeeps(d: Disk, max: u64, cut: nat)
    requires Safe(d)
    ensures var e := ApplyAll(d, Prefix(EvictRoundWrites(d, max), cut), Apply);
            && (forall k :: k in Entries(e) ==> k in Entries(d) && e.pending[k] == d.pending[k])
            && (forall k :: k in Entries(Round(d, max)) ==> k in Entries(e))
  {
    hide ApplyAll, AckInnerWrites, Round, Safe, OldestId, Entries, Recorded;
    RoundEffect(d, max);
    ApplyNone(d, Apply);
    if OverBudget(d, max) {
      var ws := AckInnerWrites(d, OldestId(d).value);
      AckSafe(d, OldestId(d).value, if cut < |ws| then cut else |ws|);
      assert Prefix(ws, cut) == ws[..if cut < |ws| then cut else |ws|];
    }
  }

  /** A stopped call has lost no entry that the finished call leaves, has altered no payload, and has added
      nothing but its own entry. */
  lemma {:induction false} StoppedCallKeeps(max: u64, a: seq<Step>, id: Key, p: Payload, n: nat, cut: nat)
    requires Appends(a) + 1 < U64_LIMIT
    ensures var d := Run(EMPTY_DISK, max, a);
            var own := PendingKey(id, Next(d, id));
            var e := ApplyAll(d, Prefix(CallWrites(d, max, id, p, n), cut), Apply);
            var f := ApplyAll(d, CallWrites(d, max, id, p, n), Apply);
            && own !in Entries(d)
            && (forall k :: k in Entries(e) ==>
                  (k in Entries(d) && e.pending[k] == d.pending[k]) || (k == own && e.pending[k] == p))
            && (forall k :: k in Entries(f) && k != own ==> k in Entries(e) && e.pending[k] == f.pending[k])
            && (own in Entries(f) && cut >= |AppendWrites(d, id, p)| ==> own in Entries(e))
  {
    hide ApplyAll, Run, Appends, AppendWrites, RoundsWrites, Safe, NextAtMost, Next, PendingKey, Rounds, Entries;
    var d, ws := Run(EMPTY_DISK, max, a), AppendWrites(Run(EMPTY_DISK, max, a), id, p);
    CrashSafety(max, a);
    AppendEntries(d, id, p, Appends(a), cut);
    var added := ApplyAll(d, ws, Apply);
    var rest := RoundsWrites(added, max, n);
    CallEffect(d, max, id, p, n);
    PrefixOfConcat(ws, rest, cut);
    StoppedTurnsKeep(added, max, n, if cut < |ws| then 0 else cut - |ws|);
    if cut >= |ws| {
      ApplyAllConcat(d, ws, Prefix(rest, cut - |ws|), Apply);
    }
  }

  lemma {:induction false} AppendEntries(d: Disk, id: Key, p: Payload, n: int, cut: nat)
    requires Safe(d) && NextAtMost(d, n) && n + 1 < U64_LIMIT
    ensures var own := PendingKey(id, Next(d, id));
            var e := ApplyAll(d, Prefix(AppendWrites(d, id, p), cut), Apply);
            var added := ApplyAll(d, AppendWrites(d, id, p), Apply);
            && own !in Entries(d) && Safe(added)
            && (forall k :: k in Entries(d) ==> k in Entries(e) && e.pending[k] == d.pending[k])
            && (forall k :: k in Entries(e) ==> k in Entries(d) || (k == own && e.pending[k] == p))
            && (forall k :: k in Entries(added) <==> k in Entries(d) || k == own)
            && added.pending[own] == p
            && (forall k :: k in Entries(d) ==> added.pending[k] == d.pending[k])
  {
    hide ApplyAll, AppendWrites, Safe, NextAtMost, SumLens, Be64, FromBe64, Next, PendingKey;
    var ws := AppendWrites(d, id, p);
    var c := if cut < |ws| then cut else |ws|;
    assert Prefix(ws, cut) == ws[..c];
    AppendPrefix(d, id, p, c);
    NumberedEffect(d, id, n);
    StowedEffect(d, id, p, n);
    AppendEffect(d, id, p, n);
    AppendSafe(d, id, p, c, n);
    AppendSafe(d, id, p, |ws|, n);
    assert ws[..|ws|] == ws;
  }
}
