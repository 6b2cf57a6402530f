/** Recorded sessions: listing them trims them, and trimming lists them. */
module Sessions {
  import opened Bytes
  import opened Sorting
  import opened Wrappers

  /** `ts` in nanoseconds since the epoch. */
  datatype Session = Session(query: string, ts: int, sid: Key)

  type Tree = map<Key, Session>

  const NANOS: int := 1_000_000_000

  /** Whole seconds since the epoch, rounded down. */
  function Secs(s: Session): int {
    s.ts / NANOS
  }

  /** `cutoff` gives the age limit at a clock reading; `None` where it is not representable. */
  datatype HistoryConfig = HistoryConfig(rotate: bool, limit: nat, cutoff: int -> Option<int>)

  // ---- the listing ----

  function Values(t: Tree, keys: seq<Key>): (l: seq<Session>)
    requires forall k :: k in keys ==> k in t
    ensures |l| == |keys|
    ensures forall i :: 0 <= i < |keys| ==> l[i] == t[keys[i]]
  {
    seq(|keys|, i requires 0 <= i < |keys| => t[keys[i]])
  }

  predicate BySecs(a: Session, b: Session) {
    Secs(a) <= Secs(b)
  }

  /** Sessions by second, and within a second in key order. */
  function Sorted(t: Tree): seq<Session> {
    Sort(Values(t, Ascending(t.Keys)), BySecs)
  }

  ghost predicate AscendingSecs(l: seq<Session>) {
    Pairwise(l, BySecs)
  }

  predicate OtherSid(a: Session, b: Session) {
    a.sid != b.sid
  }

  ghost predicate DistinctSids(l: seq<Session>) {
    Pairwise(l, OtherSid)
  }

  /** A session is filed under its own id. */
  ghost predicate Filed(t: Tree) {
    forall k :: k in t ==> t[k].sid == k
  }

  lemma ValuesDistinct(t: Tree, keys: seq<Key>)
    requires Filed(t) && StrictlyAscending(keys) && forall k :: k in keys ==> k in t
    ensures DistinctSids(Values(t, keys))
  {
    var l := Values(t, keys);
    forall i, j | 0 <= i < j < |l|
      ensures OtherSid(l[i], l[j])
    {
      assert keys[i] in keys && keys[j] in keys;
      LtIrreflexive(keys[i]);
    }
  }

  lemma SortedContents(t: Tree)
    requires Filed(t)
    ensures |Sorted(t)| == |t|
    ensures forall s :: s in Sorted(t) <==> s.sid in t && t[s.sid] == s
    ensures AscendingSecs(Sorted(t)) && DistinctSids(Sorted(t))
  {
    hide Ascending;
    var keys := Ascending(t.Keys);
    var l := Values(t, keys);
    ValuesDistinct(t, keys);
    SortContents(l, BySecs);
    SortOrdered(l, BySecs);
    SortPairwise(l, BySecs, OtherSid);
    forall s
      ensures s in l <==> s.sid in t && t[s.sid] == s
    {
      if s.sid in t && t[s.sid] == s {
        assert s.sid in keys;
        var i :| 0 <= i < |keys| && keys[i] == s.sid;
        assert l[i] == s;
      }
      if s in l {
        var i :| 0 <= i < |l| && l[i] == s;
        assert keys[i] in keys;
      }
    }
  }

  // ---- trimming ----

  predicate TooOld(s: Session, cut: Option<int>) {
    cut.Some? && s.ts < cut.value
  }

  /** How many of the oldest sessions exceed the limit. */
  function Excess(n: nat, limit: nat): nat {
    if n > limit then n - limit else 0
  }

  function Sids(l: seq<Session>): set<Key> {
    set s | s in l :: s.sid
  }

  function OldSids(l: seq<Session>, cut: Option<int>): set<Key> {
    set s | s in l && TooOld(s, cut) :: s.sid
  }

  /** The sessions that a trim removes: the oldest beyond the limit, and all that are too old. */
  function Gone(t: Tree, limit: nat, cut: Option<int>): set<Key> {
    var l := Sorted(t);
    Sids(l[..Excess(|l|, limit)]) + OldSids(l, cut)
  }

  function Trim(t: Tree, limit: nat, cut: Option<int>): Tree {
    t - Gone(t, limit, cut)
  }

  /** Of the sessions in `t` those are left that have fewer than `limit` behind them in the listing and whose time
      is not before the cut. */
  ghost predicate KeepsNewest(t: Tree, left: Tree, limit: nat, cut: Option<int>) {
    forall i :: 0 <= i < |Sorted(t)| ==>
      (Sorted(t)[i].sid in left <==> |t| - i <= limit && (cut.None? || Sorted(t)[i].ts >= cut.value))
  }

  class EventsRegistry {
    var sessions: Tree
    /** The try-lock that keeps trimming from re-entering itself. */
    var trimLocked: bool
    const cfg: HistoryConfig

    constructor (sessions: Tree, cfg: HistoryConfig)
      ensures this.sessions == sessions && !trimLocked && this.cfg == cfg
    {
      this.sessions := sessions;
      trimLocked := false;
      this.cfg := cfg;
    }

    /** Creates the session or returns the one already there. */
    method OpenSession(query: string, sid: Key, ts: int) returns (s: Session)
      requires Filed(sessions)
      modifies this`sessions
      ensures Filed(sessions)
      ensures s == (if sid in old(sessions) then old(sessions)[sid] else Session(query, ts, sid))
      ensures sessions == old(sessions)[sid := s]
    {
      if sid in sessions {
        assert sessions[sid := sessions[sid]] == sessions;
        return sessions[sid];
      }
      s := Session(query, ts, sid);
      sessions := sessions[sid := s];
    }

    /** Lists the sessions; when rotation is on and no trim is under way, trims them first.
        `now` is the reading of the clock that the trim takes. */
    method GetSessions(now: int) returns (l: seq<Session>)
      requires Filed(sessions)
      modifies this
      ensures Filed(sessions) && trimLocked == old(trimLocked)
      ensures sessions == if cfg.rotate && !old(trimLocked) then Trim(old(sessions), cfg.limit, cfg.cutoff(now))
                          else old(sessions)
      ensures l == Sorted(sessions)
      decreases if trimLocked then 0 else 2
    {
      hide Sorted, Trim, Filed;
      if cfg.rotate && !trimLocked {
        trimLocked := true;
        TrimData(now, now);
        trimLocked := false;
      }
      l := ReadAll();
    }

    method ReadAll() returns (l: seq<Session>)
      ensures l == Sorted(sessions)
    {
      hide Filed, Secs, Sort, Ascending, StrictlyAscending;
      var keys := Ascending(sessions.Keys);
      l := [];
      for i := 0 to |keys|
        invariant |l| == i && forall j :: 0 <= j < i ==> l[j] == sessions[keys[j]]
      {
        l := l + [sessions[keys[i]]];
      }
      assert l == Values(sessions, keys);
      l := Sort(l, BySecs);
    }

    /** Trims what it lists. Called from outside, the listing trims once by itself, at `innerNow`. */
    method TrimData(innerNow: int, now: int)
      requires Filed(sessions)
      modifies this
      ensures Filed(sessions) && trimLocked == old(trimLocked)
      ensures var base := if cfg.rotate && !old(trimLocked) then Trim(old(sessions), cfg.limit, cfg.cutoff(innerNow))
                          else old(sessions);
              && sessions == Trim(base, cfg.limit, cfg.cutoff(now))
              && KeepsNewest(base, sessions, cfg.limit, cfg.cutoff(now))
      decreases if trimLocked then 1 else 3
    {
      hide Sorted, Trim, Gone, Filed, KeepsNewest;
      var l := GetSessions(innerNow);
      ghost var base := sessions;
      DeleteBeyondLimit(l);
      DeleteTooOld(l, cfg.cutoff(now));
      TrimParts(base, sessions, cfg.limit, cfg.cutoff(now));
      TrimmedIds(base, cfg.limit, cfg.cutoff(now));
    }

    method DeleteBeyondLimit(l: seq<Session>)
      modifies this`sessions
      ensures sessions == old(sessions) - Sids(l[..if |l| > cfg.limit then |l| - cfg.limit else 0])
    {
      hide Sids;
      ghost var t := sessions;
      NothingGone(t);
      if |l| > cfg.limit {
        for i := 0 to |l| - cfg.limit
          invariant sessions == t - Sids(l[..i])
        {
          SidsStep(t, l, i);
          sessions := sessions - {l[i].sid};
        }
      }
    }

    method DeleteTooOld(l: seq<Session>, age: Option<int>)
      modifies this`sessions
      ensures sessions == old(sessions) - OldSids(l, age)
    {
      hide OldSids;
      ghost var t := sessions;
      NothingGone(t);
      assert t - {} == t;
      if age.Some? {
        for i := 0 to |l|
          invariant sessions == t - OldSids(l[..i], age)
        {
          OldSidsStep(t, l, i, age);
          if l[i].ts < age.value {
            sessions := sessions - {l[i].sid};
          }
        }
        assert l[..|l|] == l;
      }
    }
  }

  lemma NothingGone(t: Tree)
    ensures t - Sids([]) == t && t - OldSids([], None) == t
    ensures forall cut :: OldSids([], cut) == {}
    ensures forall l :: OldSids(l, None) == {}
  {
  }

  lemma SidsStep(t: Tree, l: seq<Session>, i: nat)
    requires i < |l|
    ensures t - Sids(l[..i]) - {l[i].sid} == t - Sids(l[..i + 1])
  {
    assert l[..i + 1] == l[..i] + [l[i]];
    SidsSnoc(l[..i], l[i]);
  }

  lemma OldSidsStep(t: Tree, l: seq<Session>, i: nat, cut: Option<int>)
    requires i < |l|
    ensures TooOld(l[i], cut) ==> t - OldSids(l[..i], cut) - {l[i].sid} == t - OldSids(l[..i + 1], cut)
    ensures !TooOld(l[i], cut) ==> t - OldSids(l[..i], cut) == t - OldSids(l[..i + 1], cut)
  {
    assert l[..i + 1] == l[..i] + [l[i]];
    OldSidsSnoc(l[..i], l[i], cut);
  }

  lemma TrimParts(base: Tree, t: Tree, limit: nat, cut: Option<int>)
    requires Filed(base)
    requires t == base - Sids(Sorted(base)[..Excess(|Sorted(base)|, limit)]) - OldSids(Sorted(base), cut)
    ensures t == Trim(base, limit, cut) && Filed(t)
  {
    hide Sorted, Sids, OldSids;
    var a, b := Sids(Sorted(base)[..Excess(|Sorted(base)|, limit)]), OldSids(Sorted(base), cut);
    assert base - a - b == base - (a + b);
  }

  lemma SidsSnoc(l: seq<Session>, x: Session)
    ensures Sids(l + [x]) == Sids(l) + {x.sid}
  {
    assert forall s :: s in l + [x] <==> s in l || s == x;
    assert x in l + [x];
  }

  lemma OldSidsSnoc(l: seq<Session>, x: Session, cut: Option<int>)
    ensures OldSids(l + [x], cut) == OldSids(l, cut) + if TooOld(x, cut) then {x.sid} else {}
  {
    assert forall s :: s in l + [x] <==> s in l || s == x;
    assert x in l + [x];
  }

  // ---- what is left after a trim ----

  function WithId(ids: set<Key>): Session -> bool {
    (s: Session) => s.sid in ids
  }

  function NotTooOld(cut: Option<int>): Session -> bool {
    (s: Session) => !TooOld(s, cut)
  }

  lemma ValuesSnoc(t: Tree, keys: seq<Key>, k: Key)
    requires k in t && forall x :: x in keys ==> x in t
    ensures Values(t, keys + [k]) == Values(t, keys) + [t[k]]
  {
  }

  lemma {:induction false} ValuesKept(t: Tree, keys: seq<Key>, ids: set<Key>, r: seq<Key>)
    requires Filed(t) && r == Filter(keys, In(ids))
    requires (forall k :: k in keys ==> k in t) && forall k :: k in r ==> k in t
    ensures Filter(Values(t, keys), WithId(ids)) == Values(t, r)
    decreases |keys|
  {
    if keys == [] {
      assert Values(t, keys) == [];
    } else {
      hide Values, Filter;
      var front, last := keys[..|keys| - 1], keys[|keys| - 1];
      assert keys == front + [last];
      var q := Filter(front, In(ids));
      FilterSnoc(front, last, In(ids));
      ValuesKept(t, front, ids, q);
      ValuesSnoc(t, front, last);
      FilterSnoc(Values(t, front), t[last], WithId(ids));
      if last in ids {
        ValuesSnoc(t, q, last);
      } else {
        assert r == q && Values(t, q) + [] == Values(t, q);
      }
    }
  }

  /** The listing of part of a tree is the rest of the listing of the whole. */
  lemma SortedPart(t: Tree, gone: set<Key>)
    requires Filed(t)
    ensures Sorted(t - gone) == Filter(Sorted(t), WithId(t.Keys - gone))
  {
    hide Ascending, Sort, Filter, Lt, Values, Secs, StrictlyAscending;
    var u, ids := t - gone, t.Keys - gone;
    AscendingPart(t.Keys, ids);
    ValuesKept(t, Ascending(t.Keys), ids, Ascending(ids));
    SecsPreorder();
    SortFilter(Values(t, Ascending(t.Keys)), BySecs, WithId(ids));
    assert u.Keys == ids;
    SameValues(t, u, Ascending(ids));
  }

  lemma SecsPreorder()
    ensures TotalPreorder(BySecs)
  {
  }

  lemma SameValues(t: Tree, u: Tree, keys: seq<Key>)
    requires forall k :: k in keys ==> k in t && k in u && t[k] == u[k]
    ensures Values(t, keys) == Values(u, keys)
  {
  }

  lemma {:induction false} KeptIsTail(l: seq<Session>, x: nat, ids: set<Key>, cut: Option<int>)
    requires x <= |l|
    requires forall s :: s in l[..x] ==> s.sid !in ids
    requires forall s :: s in l[x..] ==> (s.sid in ids <==> !TooOld(s, cut))
    ensures Filter(l, WithId(ids)) == Filter(l[x..], NotTooOld(cut))
  {
    hide Filter, TooOld;
    FilterConcat(l[..x], l[x..], WithId(ids));
    FilterNone(l[..x], WithId(ids));
    FilterSame(l[x..], WithId(ids), NotTooOld(cut));
    assert l == l[..x] + l[x..];
  }

  /** What a trim leaves: of the newest `limit` sessions those that are not too old, in their order. */
  lemma TrimLeavesNewest(t: Tree, limit: nat, cut: Option<int>)
    requires Filed(t)
    ensures Sorted(Trim(t, limit, cut)) == Filter(Sorted(t)[Excess(|Sorted(t)|, limit)..], NotTooOld(cut))
  {
    hide Sorted, Filter, TooOld, Sids, OldSids, Filed;
    SortedContents(t);
    var l, x := Sorted(t), Excess(|Sorted(t)|, limit);
    var ids := t.Keys - (Sids(l[..x]) + OldSids(l, cut));
    SortedPart(t, Gone(t, limit, cut));
    forall s | s in l[..x]
      ensures s.sid !in ids
    {
      SidOf(l[..x], s);
    }
    forall s | s in l[x..]
      ensures s.sid in ids <==> !TooOld(s, cut)
    {
      assert s in l;
      KeptOfTail(t, l, x, cut, s);
    }
    KeptIsTail(l, x, ids, cut);
  }

  lemma SidOf(l: seq<Session>, s: Session)
    requires s in l
    ensures s.sid in Sids(l)
  {
  }

  lemma KeptOfTail(t: Tree, l: seq<Session>, x: nat, cut: Option<int>, s: Session)
    requires DistinctSids(l) && x <= |l| && s in l[x..] && s.sid in t
    ensures s.sid in t.Keys - (Sids(l[..x]) + OldSids(l, cut)) <==> !TooOld(s, cut)
  {
    hide TooOld;
    TailSid(l, x, s);
    assert s in l;
    assert TooOld(s, cut) ==> s.sid in OldSids(l, cut);
    SidOnce(l, s, cut);
  }

  lemma TailSid(l: seq<Session>, x: nat, s: Session)
    requires DistinctSids(l) && x <= |l| && s in l[x..]
    ensures s.sid !in Sids(l[..x])
  {
    var j :| 0 <= j < |l[x..]| && l[x..][j] == s;
    assert l[x + j] == s;
    forall y | y in l[..x]
      ensures y.sid != s.sid
    {
      var i :| 0 <= i < x && l[i] == y;
    }
  }

  lemma SidOnce(l: seq<Session>, s: Session, cut: Option<int>)
    requires DistinctSids(l) && s in l
    ensures s.sid in OldSids(l, cut) ==> TooOld(s, cut)
  {
    if s.sid in OldSids(l, cut) {
      var y :| y in l && TooOld(y, cut) && y.sid == s.sid;
      var i, j :| 0 <= i < |l| && l[i] == y && 0 <= j < |l| && l[j] == s;
      assert i == j;
    }
  }

  lemma LostAreOlder(all: seq<Session>, x: nat, cut: Option<int>, s: Session, kept: Session)
    requires AscendingSecs(all) && x <= |all|
    requires s in all && !TooOld(s, cut)
    requires s !in Filter(all[x..], NotTooOld(cut)) && kept in Filter(all[x..], NotTooOld(cut))
    ensures Secs(s) <= Secs(kept)
  {
    hide Secs, Filter;
    FilterContents(all[x..], NotTooOld(cut));
    var i :| 0 <= i < |all| && all[i] == s;
    var j :| 0 <= j < |all[x..]| && all[x..][j] == kept;
    assert all[x + j] == kept;
    InTail(all, x, i);
  }

  lemma InTail(all: seq<Session>, x: nat, i: nat)
    requires x <= |all| && i < |all|
    ensures i < x || all[i] in all[x..]
  {
    if i >= x {
      assert all[x..][i - x] == all[i];
    }
  }

  /** With rotation on, a listing is in ascending order, within the limit, without sessions older than
      the cut; every session lost to the limit is no newer, in seconds, than any that is left; and a
      second trim at the same cut removes nothing. */
  lemma TrimmedListing(t: Tree, limit: nat, cut: Option<int>)
    requires Filed(t)
    ensures var u := Trim(t, limit, cut);
            var l := Sorted(u);
            && AscendingSecs(l) && |l| <= limit
            && (forall s :: s in l ==> !TooOld(s, cut))
            && (forall s, kept :: s in Sorted(t) && s !in l && !TooOld(s, cut) && kept in l ==> Secs(s) <= Secs(kept))
            && Trim(u, limit, cut) == u
  {
    hide Sorted, Filter, Secs, TooOld;
    SortedContents(t);
    var all, x := Sorted(t), Excess(|Sorted(t)|, limit);
    var u := Trim(t, limit, cut);
    TrimLeavesNewest(t, limit, cut);
    FilterContents(all[x..], NotTooOld(cut));
    TrimFiles(t, limit, cut);
    SortedContents(u);
    forall s, kept | s in all && s !in Sorted(u) && !TooOld(s, cut) && kept in Sorted(u)
      ensures Secs(s) <= Secs(kept)
    {
      LostAreOlder(all, x, cut, s, kept);
    }
    NothingToTrim(u, limit, cut);
  }

  lemma TrimFiles(t: Tree, limit: nat, cut: Option<int>)
    requires Filed(t)
    ensures Filed(Trim(t, limit, cut))
  {
    hide Gone;
  }

  lemma NothingToTrim(u: Tree, limit: nat, cut: Option<int>)
    requires Filed(u) && |Sorted(u)| <= limit && forall s :: s in Sorted(u) ==> !TooOld(s, cut)
    ensures Trim(u, limit, cut) == u
  {
    hide Sorted;
    assert Sorted(u)[..0] == [];
    assert Gone(u, limit, cut) == {};
  }

  /** Which sessions a trim keeps, one by one: those that are among the newest `limit` of the listing and whose
      time is not before the cut. */
  lemma {:induction false} TrimKeepsIff(t: Tree, limit: nat, cut: Option<int>, i: nat)
    requires Filed(t) && i < |Sorted(t)|
    ensures |Sorted(t)| == |t|
    ensures var s := Sorted(t)[i];
            s in Sorted(Trim(t, limit, cut)) <==> |t| - i <= limit && (cut.None? || s.ts >= cut.value)
  {
    hide Sorted, Filter;
    SortedContents(t);
    TrimLeavesNewest(t, limit, cut);
    var l, x := Sorted(t), Excess(|Sorted(t)|, limit);
    FilterContents(l[x..], NotTooOld(cut));
    if l[i] in l[x..] {
      var j :| 0 <= j < |l[x..]| && l[x..][j] == l[i];
      OnePlace(l, i, x + j);
    } else if i >= x {
      InTail(l, x, i);
    }
  }

  lemma {:induction false} OnePlace(l: seq<Session>, i: nat, j: nat)
    requires DistinctSids(l) && i < |l| && j < |l| && l[i] == l[j]
    ensures i == j
  {
    assert i < j ==> OtherSid(l[i], l[j]);
    assert j < i ==> OtherSid(l[j], l[i]);
  }

  /** So where none is too old exactly the limit remains, or all if there are fewer. */
  lemma {:induction false} TrimLeavesLimit(t: Tree, limit: nat, cut: Option<int>)
    requires Filed(t) && forall k :: k in t ==> cut.None? || t[k].ts >= cut.value
    ensures |Sorted(Trim(t, limit, cut))| == |Trim(t, limit, cut)| == if |t| < limit then |t| else limit
  {
    hide Sorted, Filter, Trim;
    SortedContents(t);
    TrimLeavesNewest(t, limit, cut);
    TrimFiles(t, limit, cut);
    SortedContents(Trim(t, limit, cut));
    var l, x := Sorted(t), Excess(|Sorted(t)|, limit);
    forall s | s in l[x..]
      ensures NotTooOld(cut)(s)
    {
      assert s in l;
    }
    FilterContents(l[x..], NotTooOld(cut));
  }

  /** The listing in full: by whole seconds since the epoch, and within a second by session id. */
  lemma {:induction false} ListingOrder(t: Tree, i: nat, j: nat)
    requires Filed(t) && i < j < |Sorted(t)|
    ensures var a, b := Sorted(t)[i], Sorted(t)[j];
            a.ts / 1_000_000_000 < b.ts / 1_000_000_000
            || (a.ts / 1_000_000_000 == b.ts / 1_000_000_000 && Lt(a.sid, b.sid))
  {
    hide Sorted, Filter, Lt, Sort;
    SortedContents(t);
    var l := Sorted(t);
    var a, b := l[i], l[j];
    assert BySecs(a, b) && OtherSid(a, b);
    if Secs(a) == Secs(b) {
      assert a in l && b in l;
      PairInOrder(t, a, b);
      var ids := {a.sid, b.sid};
      KeepsOrder(l, i, j, WithId(ids));
      LtTotal(a.sid, b.sid);
    }
  }

  /** Of two sessions of one second, the one whose id is smaller comes first. */
  lemma {:induction false} PairInOrder(t: Tree, a: Session, b: Session)
    requires Filed(t) && a.sid in t && b.sid in t && t[a.sid] == a && t[b.sid] == b
    requires a.sid != b.sid && Secs(a) == Secs(b)
    ensures Filter(Sorted(t), WithId({a.sid, b.sid})) == if Lt(a.sid, b.sid) then [a, b] else [b, a]
  {
    hide Filter, Lt, Sort, Ascending, Values, Secs, Sorted, StrictlyAscending;
    var ids, gone := {a.sid, b.sid}, t.Keys - {a.sid, b.sid};
    assert t.Keys - gone == ids;
    SortedPart(t, gone);
    LtTotal(a.sid, b.sid);
    TwoKeys(a.sid, b.sid);
    assert (t - gone).Keys == ids;
    PairSorted(t - gone, a, b);
  }

  lemma {:induction false} TwoKeys(a: Key, b: Key)
    requires a != b
    ensures Ascending({a, b}) == if Lt(a, b) then [a, b] else [b, a]
  {
    LtTotal(a, b);
    var l := if Lt(a, b) then [a, b] else [b, a];
    hide Ascending, Lt;
    assert StrictlyAscending(l);
    AscendingUnique(Ascending({a, b}), l);
  }

  lemma {:induction false} PairSorted(u: Tree, a: Session, b: Session)
    requires u.Keys == {a.sid, b.sid} && u[a.sid] == a && u[b.sid] == b && a.sid != b.sid && Secs(a) == Secs(b)
    ensures Sorted(u) == if Lt(a.sid, b.sid) then [a, b] else [b, a]
  {
    hide Ascending, Lt, Secs, Sort;
    TwoKeys(a.sid, b.sid);
    var l := if Lt(a.sid, b.sid) then [a, b] else [b, a];
    assert Values(u, Ascending(u.Keys)) == l;
    SortTwo(l[0], l[1]);
  }

  lemma {:induction false} SortTwo(a: Session, b: Session)
    requires BySecs(a, b)
    ensures Sort([a, b], BySecs) == [a, b]
  {
    hide BySecs;
    SortNothing(BySecs);
    SortSnoc([], a, BySecs);
    SortSnoc([a], b, BySecs);
    assert [] + [a] == [a] && [a] + [b] == [a, b];
  }

  /** Filtering keeps the order of what it keeps. */
  lemma {:induction false} KeepsOrder(l: seq<Session>, i: nat, j: nat, keep: Session -> bool)
    requires i < j < |l| && keep(l[i]) && keep(l[j]) && l[i] != l[j]
    requires Filter(l, keep) == [l[i], l[j]] || Filter(l, keep) == [l[j], l[i]]
    requires DistinctSids(l)
    ensures Filter(l, keep) == [l[i], l[j]]
  {
    hide Filter;
    var rel := (x: Session, y: Session) => !(x == l[j] && y == l[i]);
    forall m, n | 0 <= m < n < |l|
      ensures rel(l[m], l[n])
    {
      if l[m] == l[j] {
        OnePlace(l, m, j);
      }
      if l[n] == l[i] {
        OnePlace(l, n, i);
      }
    }
    FilterPairwise(l, keep, rel);
    var f := Filter(l, keep);
    assert |f| == 2 && rel(f[0], f[1]);
  }

  lemma {:induction false} TrimmedIds(t: Tree, limit: nat, cut: Option<int>)
    requires Filed(t)
    ensures KeepsNewest(t, Trim(t, limit, cut), limit, cut)
  {
    hide Sorted, Trim;
    SortedContents(t);
    TrimFiles(t, limit, cut);
    SortedContents(Trim(t, limit, cut));
    forall i | 0 <= i < |Sorted(t)|
      ensures Sorted(t)[i].sid in Trim(t, limit, cut)
              <==> |t| - i <= limit && (cut.None? || Sorted(t)[i].ts >= cut.value)
    {
      TrimKeepsIff(t, limit, cut, i);
      assert Sorted(t)[i] in Sorted(t);
      TrimKeepsValues(t, limit, cut, Sorted(t)[i].sid);
    }
  }

  lemma TrimKeepsValues(t: Tree, limit: nat, cut: Option<int>, k: Key)
    ensures k in Trim(t, limit, cut) ==> k in t && Trim(t, limit, cut)[k] == t[k]
  {
    hide Gone;
  }
}
