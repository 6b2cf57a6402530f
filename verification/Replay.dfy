/** Replay identities, their keys, and the at-most-once claim on them. */
module Replay {
  datatype ReplayIdentity =
    | MasterCommand(minion: string, cycle: string)
    | Event(minion: string, cycle: string, entity: string, session: string, action: string)
    | ModelEvent(minion: string, cycle: string)
    | ModelAck(minion: string, cycle: string)

  const PIPE := '|'

  function KindName(a: ReplayIdentity): string {
    match a
    case MasterCommand(_, _) => "mcmd"
    case Event(_, _, _, _, _) => "evt"
    case ModelEvent(_, _) => "mvt"
    case ModelAck(_, _) => "mack"
  }

  function Fields(a: ReplayIdentity): seq<string> {
    match a
    case Event(m, c, e, s, x) => [m, c, e, s, x]
    case _ => [a.minion, a.cycle]
  }

  /** `"{kind}|{field}|…"`. */
  function KeyOf(a: ReplayIdentity): string {
    KindName(a) + Tail(Fields(a))
  }

  function Tail(fields: seq<string>): string {
    if fields == [] then "" else [PIPE] + fields[0] + Tail(fields[1..])
  }

  // ---- when keys tell identities apart ----

  function Pipes(s: string): nat {
    if s == "" then 0 else (if s[0] == PIPE then 1 else 0) + Pipes(s[1..])
  }

  function PipesIn(fields: seq<string>): nat {
    if fields == [] then 0 else Pipes(fields[0]) + PipesIn(fields[1..])
  }

  lemma {:induction false} PipesConcat(a: string, b: string)
    ensures Pipes(a + b) == Pipes(a) + Pipes(b)
    decreases |a|
  {
    if a == "" {
      assert a + b == b;
    } else {
      assert (a + b)[1..] == a[1..] + b;
      PipesConcat(a[1..], b);
    }
  }

  lemma {:induction false} PipesOfTail(fields: seq<string>)
    ensures Pipes(Tail(fields)) == |fields| + PipesIn(fields)
    decreases |fields|
  {
    if fields != [] {
      PipesOfTail(fields[1..]);
      PipesConcat([PIPE] + fields[0], Tail(fields[1..]));
      PipesConcat([PIPE], fields[0]);
      assert [PIPE][1..] == "";
    }
  }

  lemma {:induction false} NoPipe(s: string)
    ensures Pipes(s) == 0 <==> PIPE !in s
    decreases |s|
  {
    if s != "" {
      NoPipe(s[1..]);
      assert s == [s[0]] + s[1..];
    }
  }

  lemma FirstChar(b: string, y: string)
    ensures b != "" ==> b + y != "" && (b + y)[0] == b[0] && b[0] in b
    ensures "" + y == y
  {
  }

  /** Text up to the first pipe is determined by the whole. */
  lemma {:induction false} HeadUnique(a: string, x: string, b: string, y: string)
    requires PIPE !in a && PIPE !in b
    requires x == "" || x[0] == PIPE
    requires y == "" || y[0] == PIPE
    requires a + x == b + y
    ensures a == b && x == y
    decreases |a|
  {
    FirstChar(a, x);
    FirstChar(b, y);
    if a != "" {
      assert (a + x)[1..] == a[1..] + x && (b + y)[1..] == b[1..] + y;
      HeadUnique(a[1..], x, b[1..], y);
      assert a == [a[0]] + a[1..] && b == [b[0]] + b[1..];
    }
  }

  lemma {:induction false} TailShape(f: seq<string>)
    ensures Tail(f) == "" <==> f == []
    ensures f != [] ==> Tail(f)[0] == PIPE && Tail(f)[1..] == f[0] + Tail(f[1..])
  {
    if f != [] {
      assert Tail(f) == [PIPE] + (f[0] + Tail(f[1..]));
    }
  }

  lemma {:induction false} TailUnique(f: seq<string>, g: seq<string>)
    requires PipesIn(f) == 0 && PipesIn(g) == 0
    requires Tail(f) == Tail(g)
    ensures f == g
    decreases |f|
  {
    TailShape(f);
    TailShape(g);
    if f != [] {
      TailShape(f[1..]);
      TailShape(g[1..]);
      NoPipe(f[0]);
      NoPipe(g[0]);
      HeadUnique(f[0], Tail(f[1..]), g[0], Tail(g[1..]));
      TailUnique(f[1..], g[1..]);
      assert f == [f[0]] + f[1..] && g == [g[0]] + g[1..];
    }
  }

  lemma KindsDiffer(a: ReplayIdentity, b: ReplayIdentity)
    ensures PIPE !in KindName(a)
    ensures KindName(a) == KindName(b) ==> |Fields(a)| == |Fields(b)|
    ensures KindName(a) == KindName(b) && Fields(a) == Fields(b) ==> a == b
  {
    if KindName(a) == KindName(b) && Fields(a) == Fields(b) {
      assert KindName(a)[1] == KindName(b)[1] && KindName(a)[0] == KindName(b)[0];
      assert Fields(a)[0] == Fields(b)[0] && Fields(a)[1] == Fields(b)[1];
      if a.Event? && b.Event? {
        assert Fields(a)[2] == Fields(b)[2] && Fields(a)[3] == Fields(b)[3] && Fields(a)[4] == Fields(b)[4];
      }
    }
  }

  /** Keys of different kinds never meet, whatever the fields hold. */
  lemma SameKeySameKind(a: ReplayIdentity, b: ReplayIdentity)
    requires KeyOf(a) == KeyOf(b)
    ensures KindName(a) == KindName(b) && Tail(Fields(a)) == Tail(Fields(b))
  {
    KindsDiffer(a, b);
    KindsDiffer(b, a);
    TailShape(Fields(a));
    TailShape(Fields(b));
    HeadUnique(KindName(a), Tail(Fields(a)), KindName(b), Tail(Fields(b)));
  }

  /** The keys in full: the kind, and behind a pipe each the fields in order. */
  lemma {:induction false} KeyText(a: ReplayIdentity)
    ensures a.MasterCommand? ==> KeyOf(a) == "mcmd|" + a.minion + "|" + a.cycle
    ensures a.Event? ==>
              KeyOf(a) == "evt|" + a.minion + "|" + a.cycle + "|" + a.entity + "|" + a.session + "|" + a.action
    ensures a.ModelEvent? ==> KeyOf(a) == "mvt|" + a.minion + "|" + a.cycle
    ensures a.ModelAck? ==> KeyOf(a) == "mack|" + a.minion + "|" + a.cycle
  {
    hide Tail;
    if a.Event? {
      TailOfFive(a.minion, a.cycle, a.entity, a.session, a.action);
      EventText(a.minion, a.cycle, a.entity, a.session, a.action);
    } else {
      TailOfTwo(a.minion, a.cycle);
      PairText(KindName(a), a.minion, a.cycle);
      assert "mcmd" + "|" == "mcmd|" && "mvt" + "|" == "mvt|" && "mack" + "|" == "mack|";
    }
  }

  lemma {:induction false} TailFirst(f: string, rest: seq<string>)
    ensures Tail([f] + rest) == "|" + f + Tail(rest)
    ensures Tail([]) == ""
  {
    assert ([f] + rest)[0] == f && ([f] + rest)[1..] == rest;
  }

  lemma {:induction false} TailOfTwo(m: string, c: string)
    ensures Tail([m, c]) == "|" + m + ("|" + c + "")
  {
    hide Tail;
    TailFirst(m, [c]);
    TailFirst(c, []);
    assert [m] + [c] == [m, c] && [c] + [] == [c];
  }

  lemma {:induction false} TailOfFive(m: string, c: string, e: string, s: string, x: string)
    ensures Tail([m, c, e, s, x]) == "|" + m + ("|" + c + ("|" + e + ("|" + s + ("|" + x + ""))))
  {
    hide Tail;
    TailFirst(m, [c, e, s, x]);
    TailFirst(c, [e, s, x]);
    TailFirst(e, [s, x]);
    TailOfTwo(s, x);
    assert [m] + [c, e, s, x] == [m, c, e, s, x] && [c] + [e, s, x] == [c, e, s, x] && [e] + [s, x] == [e, s, x];
  }

  lemma {:induction false} PairText(kind: string, m: string, c: string)
    ensures kind + ("|" + m + ("|" + c + "")) == kind + "|" + m + "|" + c
  {
  }

  lemma {:induction false} EventText(m: string, c: string, e: string, s: string, x: string)
    ensures "evt" + ("|" + m + ("|" + c + ("|" + e + ("|" + s + ("|" + x + ""))))) ==
            "evt|" + m + "|" + c + "|" + e + "|" + s + "|" + x
  {
    var end := "|" + s + ("|" + x + "");
    assert end == "|" + s + "|" + x;
    assert "|" + c + ("|" + e + end) == "|" + c + "|" + e + "|" + s + "|" + x;
    assert "evt" + ("|" + m) == "evt|" + m;
  }

  /** An identity without a pipe in its fields shares its key with no other, pipes or not. */
  lemma PlainKeyUnique(a: ReplayIdentity, b: ReplayIdentity)
    requires PipesIn(Fields(a)) == 0
    ensures KeyOf(a) == KeyOf(b) <==> a == b
  {
    if KeyOf(a) == KeyOf(b) {
      SameKeySameKind(a, b);
      KindsDiffer(a, b);
      PipesOfTail(Fields(a));
      PipesOfTail(Fields(b));
      TailUnique(Fields(a), Fields(b));
    }
  }

  /** Position of the first pipe. */
  function FirstPipe(s: string): (i: nat)
    requires PIPE in s
    ensures i < |s| && s[i] == PIPE
  {
    if s[0] == PIPE then 0 else 1 + FirstPipe(s[1..])
  }

  /** Other fields with the same tail: the text around a pipe is shared out differently. */
  function TwinFields(f: seq<string>): (g: seq<string>)
    requires |f| >= 2
    ensures |g| == |f|
  {
    if PIPE in f[0] then
      var i := FirstPipe(f[0]);
      [f[0][..i], f[0][i + 1..] + [PIPE] + f[1]] + f[2..]
    else if |f| > 2 then [f[0]] + TwinFields(f[1..])
    else if PIPE in f[1] then
      var i := FirstPipe(f[1]);
      [f[0] + [PIPE] + f[1][..i], f[1][i + 1..]]
    else f
  }

  lemma {:induction false} TailTwo(a: string, b: string, rest: seq<string>)
    ensures Tail([a, b] + rest) == [PIPE] + (a + [PIPE] + b) + Tail(rest)
  {
    assert ([a, b] + rest)[1..] == [b] + rest && ([b] + rest)[1..] == rest;
    assert Tail([b] + rest) == [PIPE] + b + Tail(rest);
    assert [PIPE] + a + ([PIPE] + b + Tail(rest)) == [PIPE] + (a + [PIPE] + b) + Tail(rest);
  }

  lemma {:induction false} TwinFieldsDiffer(f: seq<string>)
    requires |f| >= 2 && PipesIn(f) > 0
    ensures TwinFields(f) != f && Tail(TwinFields(f)) == Tail(f)
    decreases |f|
  {
    NoPipe(f[0]);
    var g := TwinFields(f);
    if PIPE in f[0] {
      var i := FirstPipe(f[0]);
      assert f == [f[0], f[1]] + f[2..];
      TailTwo(f[0], f[1], f[2..]);
      TailTwo(f[0][..i], f[0][i + 1..] + [PIPE] + f[1], f[2..]);
      assert f[0][..i] + [PIPE] + (f[0][i + 1..] + [PIPE] + f[1]) == f[0] + [PIPE] + f[1];
      assert |g[0]| < |f[0]|;
    } else if |f| > 2 {
      TwinFieldsDiffer(f[1..]);
      assert g[1..] == TwinFields(f[1..]);
    } else {
      assert f[1..] == [f[1]] && [f[1]][1..] == [];
      assert PipesIn([f[1]]) == Pipes(f[1]);
      NoPipe(f[1]);
      var i := FirstPipe(f[1]);
      assert f == [f[0], f[1]] + [];
      assert g == [g[0], g[1]] + [];
      TailTwo(f[0], f[1], []);
      TailTwo(f[0] + [PIPE] + f[1][..i], f[1][i + 1..], []);
      assert f[0] + [PIPE] + f[1][..i] + [PIPE] + f[1][i + 1..] == f[0] + [PIPE] + f[1];
      assert |g[1]| < |f[1]|;
    }
  }

  function WithFields(a: ReplayIdentity, g: seq<string>): (b: ReplayIdentity)
    requires |g| == |Fields(a)|
    ensures KindName(b) == KindName(a) && Fields(b) == g
  {
    match a
    case Event(_, _, _, _, _) => Event(g[0], g[1], g[2], g[3], g[4])
    case MasterCommand(_, _) => MasterCommand(g[0], g[1])
    case ModelEvent(_, _) => ModelEvent(g[0], g[1])
    case ModelAck(_, _) => ModelAck(g[0], g[1])
  }

  /** A key stands for one identity exactly when no field of that identity holds a pipe. */
  lemma KeyUniqueIffPlain(a: ReplayIdentity)
    ensures (forall b :: KeyOf(b) == KeyOf(a) ==> b == a) <==> PipesIn(Fields(a)) == 0
  {
    if PipesIn(Fields(a)) == 0 {
      forall b | KeyOf(b) == KeyOf(a)
        ensures b == a
      {
        PlainKeyUnique(a, b);
      }
    } else {
      TwinFieldsDiffer(Fields(a));
      var b := WithFields(a, TwinFields(Fields(a)));
      assert KeyOf(b) == KeyOf(a) && b != a;
    }
  }

  // ---- claims ----

  /** One claim on the keys recorded so far: whether it is the first, and the keys recorded after it. */
  function Claim(replay: set<string>, key: string): (bool, set<string>) {
    if key in replay then (false, replay) else (true, replay + {key})
  }

  class EventsRegistry {
    /** The keys of the replay tree. */
    var replay: set<string>

    constructor ()
      ensures replay == {}
    {
      replay := {};
    }

    method ClaimReplayKey(key: string) returns (first: bool)
      modifies this
      ensures (first, replay) == Claim(old(replay), key)
    {
      if key in replay {
        return false;
      }
      replay := replay + {key};
      first := true;
    }

    method PurgeAllData()
      modifies this
      ensures replay == {}
    {
      replay := {};
    }
  }

  /** The identities accepted by a run of claims after a purge, in order, and the keys then recorded. */
  function ClaimRun(ids: seq<ReplayIdentity>): (seq<ReplayIdentity>, set<string>) {
    if ids == [] then ([], {})
    else
      var (accepted, replay) := ClaimRun(ids[..|ids| - 1]);
      var last := ids[|ids| - 1];
      var (first, replay') := Claim(replay, KeyOf(last));
      (if first then accepted + [last] else accepted, replay')
  }

  ghost predicate Plain(ids: seq<ReplayIdentity>) {
    forall i :: i in ids ==> PipesIn(Fields(i)) == 0
  }

  lemma {:induction false} RecordedKeys(ids: seq<ReplayIdentity>)
    ensures forall key :: key in ClaimRun(ids).1 <==> exists i :: i in ids && KeyOf(i) == key
    decreases |ids|
  {
    if ids != [] {
      hide KeyOf;
      var front, last := ids[..|ids| - 1], ids[|ids| - 1];
      assert ids == front + [last];
      RecordedKeys(front);
    }
  }

  /** At most once, and at least once: of identities without pipes each one claimed is accepted exactly
      once, however often and in whatever order it is claimed. */
  lemma {:induction false} AtMostOnce(ids: seq<ReplayIdentity>)
    requires Plain(ids)
    ensures var accepted := ClaimRun(ids).0;
            && (forall i :: i in accepted <==> i in ids)
            && (forall m, n :: 0 <= m < n < |accepted| ==> accepted[m] != accepted[n])
    decreases |ids|
  {
    if ids != [] {
      hide KeyOf;
      var front, last := ids[..|ids| - 1], ids[|ids| - 1];
      assert ids == front + [last];
      AtMostOnce(front);
      RecordedKeys(front);
      var (accepted, replay) := ClaimRun(front);
      if KeyOf(last) in replay {
        var i :| i in front && KeyOf(i) == KeyOf(last);
        PlainKeyUnique(i, last);
      } else {
        assert last !in front;
        assert forall m :: 0 <= m < |accepted| ==> accepted[m] in accepted;
      }
    }
  }
}
