/** Leases on action ids: who holds one is decided by the history alone. */
module EidHub {
  import opened Wrappers

  predicate Masked(eid: string) {
    '$' in eid || '*' in eid
  }

  datatype Op = Add(eid: string) | Drop(eid: string) | Get(eid: string)

  /** One operation under the lock, with the clock reading it took and the answer it gave. */
  datatype Event = Event(op: Op, now: int, answer: bool)

  type Store = map<string, int>

  predicate Active(store: Store, eid: string, now: int) {
    eid in store && store[eid] > now
  }

  /** The answer of an operation and the expiry times after it. */
  function Perform(store: Store, ttl: nat, op: Op, now: int): (bool, Store) {
    match op
    case Add(eid) =>
      if Masked(eid) || Active(store, eid, now) then (false, store) else (true, store[eid := now + ttl])
    case Drop(eid) => (true, if Masked(eid) then store else store - {eid})
    case Get(eid) =>
      if Active(store, eid, now) then (true, store[eid := now + ttl])
      else (false, store - {eid})
  }

  class EidHub {
    const defaultTtl: nat
    var store: Store

    constructor (defaultTtl: nat)
      ensures store == map[] && this.defaultTtl == defaultTtl
    {
      this.defaultTtl := defaultTtl;
      store := map[];
    }

    method Register(eid: string, now: int) returns (ok: bool)
      modifies this
      ensures (ok, store) == Perform(old(store), defaultTtl, Add(eid), now)
    {
      if '$' in eid || '*' in eid {
        return false;
      }
      if eid in store {
        if store[eid] > now {
          return false;
        }
        store := store - {eid};
      }
      assert store[eid := now + defaultTtl] == old(store)[eid := now + defaultTtl];
      store := store[eid := now + defaultTtl];
      ok := true;
    }

    method Release(eid: string)
      modifies this
      ensures store == Perform(old(store), defaultTtl, Drop(eid), 0).1
    {
      if '$' in eid || '*' in eid {
        return;
      }
      store := store - {eid};
    }

    method Touch(eid: string, now: int) returns (live: bool)
      modifies this
      ensures (live, store) == Perform(old(store), defaultTtl, Get(eid), now)
    {
      live := false;
      if eid in store {
        if store[eid] > now {
          store := store[eid := now + defaultTtl];
          return true;
        }
        store := store - {eid};
      }
      assert eid !in old(store) ==> old(store) - {eid} == old(store);
    }
  }

  // ---- histories ----

  /** The expiry times after a history. */
  function StoreAfter(ttl: nat, h: seq<Event>): Store {
    if h == [] then map[]
    else Perform(StoreAfter(ttl, h[..|h| - 1]), ttl, h[|h| - 1].op, h[|h| - 1].now).1
  }

  /** The answers are those the hub gives, and the clock never goes back. */
  predicate Happened(ttl: nat, h: seq<Event>) {
    h == [] ||
    (var n := |h| - 1;
     && Happened(ttl, h[..n])
     && h[n].answer == Perform(StoreAfter(ttl, h[..n]), ttl, h[n].op, h[n].now).0
     && (n > 0 ==> h[n - 1].now <= h[n].now))
  }

  /** A granted add or a positive get: the holder's lease runs anew from here. */
  predicate Renews(e: Event, eid: string) {
    e.answer && (e.op == Add(eid) || e.op == Get(eid))
  }

  /** The end of the lease on an id, from the history alone: the last renewal not followed by a drop. */
  function Lease(ttl: nat, h: seq<Event>, eid: string): Option<int> {
    if h == [] then None
    else
      var e := h[|h| - 1];
      if Renews(e, eid) then Some(e.now + ttl)
      else if e.op == Drop(eid) then None
      else Lease(ttl, h[..|h| - 1], eid)
  }

  predicate Leased(ttl: nat, h: seq<Event>, eid: string, now: int) {
    Lease(ttl, h, eid).Some? && Lease(ttl, h, eid).value > now
  }

  /** The store agrees with the history at every moment from now on, and holds no masked id. */
  lemma {:induction false} StoreIsHistory(ttl: nat, h: seq<Event>, eid: string, now: int)
    requires Happened(ttl, h) && (h != [] ==> h[|h| - 1].now <= now)
    ensures Active(StoreAfter(ttl, h), eid, now) <==> Leased(ttl, h, eid, now)
    ensures '$' in eid || '*' in eid ==> eid !in StoreAfter(ttl, h) && Lease(ttl, h, eid).None?
    decreases |h|
  {
    if h != [] {
      var n := |h| - 1;
      StoreIsHistory(ttl, h[..n], eid, now);
      StoreIsHistory(ttl, h[..n], eid, h[n].now);
    }
  }

  /** A registration is granted exactly when the id has neither '$' nor '*' in it and no lease on it is running;
      a lookup succeeds exactly while one is. */
  lemma {:induction false} AnswersFollowHistory(ttl: nat, h: seq<Event>, e: Event)
    requires Happened(ttl, h + [e])
    ensures e.op.Add? ==> (e.answer <==> '$' !in e.op.eid && '*' !in e.op.eid && !Leased(ttl, h, e.op.eid, e.now))
    ensures e.op.Get? ==> (e.answer <==> Leased(ttl, h, e.op.eid, e.now))
  {
    assert (h + [e])[..|h|] == h;
    assert h != [] ==> (h + [e])[|h| - 1] == h[|h| - 1];
    StoreIsHistory(ttl, h, e.op.eid, e.now);
  }

  lemma {:induction false} LeaseCoversRenewal(ttl: nat, h: seq<Event>, eid: string, m: nat)
    requires Happened(ttl, h) && m < |h| && Renews(h[m], eid)
    requires forall i :: m < i < |h| ==> h[i].op != Drop(eid)
    ensures Lease(ttl, h, eid).Some? && Lease(ttl, h, eid).value >= h[m].now + ttl
    ensures h[m].now <= h[|h| - 1].now
    decreases |h|
  {
    var n := |h| - 1;
    if m < n {
      assert h[..n][m] == h[m];
      LeaseCoversRenewal(ttl, h[..n], eid, m);
    }
  }

  lemma {:induction false} HappenedPrefix(ttl: nat, h: seq<Event>, n: nat)
    requires Happened(ttl, h) && n <= |h|
    ensures Happened(ttl, h[..n])
    decreases |h|
  {
    if n == |h| {
      assert h[..n] == h;
    } else {
      HappenedPrefix(ttl, h[..|h| - 1], n);
      assert h[..|h| - 1][..n] == h[..n];
    }
  }

  /** Between two grants of one id with no drop in between, the second comes at least a whole lease
      after the first and after every renewal in between. */
  lemma {:induction false} GrantsAreApart(ttl: nat, h: seq<Event>, j: nat, m: nat, eid: string)
    requires Happened(ttl, h) && m < j < |h|
    requires h[j].op == Add(eid) && h[j].answer
    requires Renews(h[m], eid)
    requires forall i :: m < i < j ==> h[i].op != Drop(eid)
    ensures h[m].now + ttl <= h[j].now
  {
    HappenedPrefix(ttl, h, j + 1);
    HappenedPrefix(ttl, h, j);
    assert h[..j + 1] == h[..j] + [h[j]];
    AnswersFollowHistory(ttl, h[..j], h[j]);
    LeaseCoversRenewal(ttl, h[..j], eid, m);
  }
}
