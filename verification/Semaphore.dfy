/** Leased counting semaphores in Redis sorted sets. A `System` is the shared data together
    with the leases their holders believe in; each script, command or passage of time is one
    atomic `Step`, so a run is any interleaving of clients that may crash anywhere. */
module Semaphore {

  type Key = string
  type LeaseId = string

  /** One lease time to live for everyone and a fixed limit per key. */
  datatype Config = Config(ttl: int, limit: Key -> int)

  /** A sorted set of lease ids scored by their expiry, with its whole-key expiry. */
  datatype ZSet = ZSet(scores: map<LeaseId, int>, expireAt: int)

  datatype Store = Store(clock: int, sets: map<Key, ZSet>, registered: set<Key>)

  /** A lease as its holder knows it: when it runs out and which keys it has taken. */
  datatype Lease = Lease(expiresAt: int, keys: seq<Key>)

  datatype System = System(store: Store, leases: map<LeaseId, Lease>)

  datatype Step =
    | Tick(time: int)
    | Begin(id: LeaseId, now: int)
    | Take(id: LeaseId, key: Key)
    | Register(key: Key)
    | Give(id: LeaseId, key: Key)
    | Renew(id: LeaseId, now: int)
    | Reap(key: Key, now: int)

  function Members(s: Store, key: Key): map<LeaseId, int> {
    if key in s.sets then s.sets[key].scores else map[]
  }

  function After(m: map<LeaseId, int>, now: int): map<LeaseId, int> {
    map id | id in m && m[id] > now :: m[id]
  }

  /** Removes members; a sorted set that becomes empty disappears together with its expiry. */
  function Shrink(s: Store, key: Key, m: map<LeaseId, int>): Store {
    if m == map[] then s.(sets := s.sets - {key})
    else if key in s.sets then s.(sets := s.sets[key := s.sets[key].(scores := m)])
    else s
  }

  /** The acquire script: drop what ran out by `now`, then add the id while there is room. */
  function AcquireScript(s: Store, key: Key, now: int, limit: int, expiresAt: int, id: LeaseId,
      ttl: int): (Store, bool) {
    var kept := After(Members(s, key), now);
    if |kept| >= limit then (Shrink(s, key, kept), false)
    else (s.(sets := s.sets[key := ZSet(kept[id := expiresAt], s.clock + ttl)]), true)
  }

  predicate HoldsAll(s: Store, keys: seq<Key>, id: LeaseId) {
    forall key :: key in keys ==> id in Members(s, key)
  }

  /** The renew script: all keys or none. */
  function RenewScript(s: Store, keys: seq<Key>, expiresAt: int, id: LeaseId, ttl: int): (Store, bool) {
    if !HoldsAll(s, keys, id) then (s, false)
    else
      (s.(sets := map key | key in s.sets ::
            if key in keys then ZSet(s.sets[key].scores[id := expiresAt], s.clock + ttl) else s.sets[key]), true)
  }

  /** Redis drops a key once its expiry is reached. */
  function Advance(s: Store, time: int): Store {
    s.(clock := time, sets := map key | key in s.sets && s.sets[key].expireAt > time :: s.sets[key])
  }

  function Without(keys: seq<Key>, key: Key): seq<Key> {
    if keys == [] then [] else (if keys[0] == key then [] else [keys[0]]) + Without(keys[1..], key)
  }

  /** Time only moves forward, clients read it before they send it, ids are fresh, and a
      holder renews with times that do not go back. */
  predicate Enabled(c: Config, s: System, step: Step) {
    match step
    case Tick(time) => time >= s.store.clock
    case Begin(id, now) => id !in s.leases && now <= s.store.clock
    case Take(id, key) => id in s.leases && c.limit(key) > 0
    case Register(_) => true
    case Give(id, _) => id in s.leases
    case Renew(id, now) => id in s.leases && now <= s.store.clock && now + c.ttl >= s.leases[id].expiresAt
    case Reap(_, now) => now <= s.store.clock
  }

  /** What the acquire or renew script answers. */
  predicate Granted(c: Config, s: System, step: Step)
    requires Enabled(c, s, step)
  {
    match step
    case Take(id, key) =>
      var at := s.leases[id].expiresAt;
      AcquireScript(s.store, key, at - c.ttl, c.limit(key), at, id, c.ttl).1
    case Renew(id, now) => RenewScript(s.store, s.leases[id].keys, now + c.ttl, id, c.ttl).1
    case _ => true
  }

  function Apply(c: Config, s: System, step: Step): System {
    if !Enabled(c, s, step) then s else
      match step
      case Tick(time) => s.(store := Advance(s.store, time))
      case Begin(id, now) => s.(leases := s.leases[id := Lease(now + c.ttl, [])])
      case Take(id, key) =>
        var at := s.leases[id].expiresAt;
        var (store, ok) := AcquireScript(s.store, key, at - c.ttl, c.limit(key), at, id, c.ttl);
        System(store, if ok then s.leases[id := s.leases[id].(keys := s.leases[id].keys + [key])] else s.leases)
      case Register(key) => s.(store := s.store.(registered := s.store.registered + {key}))
      case Give(id, key) =>
        System(Shrink(s.store, key, Members(s.store, key) - {id}),
               s.leases[id := s.leases[id].(keys := Without(s.leases[id].keys, key))])
      case Renew(id, now) =>
        var (store, ok) := RenewScript(s.store, s.leases[id].keys, now + c.ttl, id, c.ttl);
        System(store, if ok then s.leases[id := s.leases[id].(expiresAt := now + c.ttl)] else s.leases)
      case Reap(key, now) => s.(store := Shrink(s.store, key, After(Members(s.store, key), now)))
  }

  function Run(c: Config, s: System, steps: seq<Step>): System
    decreases steps
  {
    if steps == [] then s else Run(c, Apply(c, s, steps[0]), steps[1..])
  }

  // ---------------------------------------------------------------------------------------
  // The invariant.

  /** A lease that has not run out. */
  predicate Active(s: System, id: LeaseId) {
    id in s.leases && s.leases[id].expiresAt > s.store.clock
  }

  /** A sorted set never has more members than its limit; each belongs to a lease that knows
      about it and carries that lease's expiry; the whole-key expiry covers them all. */
  ghost predicate KeyInv(c: Config, s: System, key: Key) {
    key in s.store.sets ==>
      var z := s.store.sets[key];
      && z.scores != map[]
      && |z.scores| <= c.limit(key)
      && z.expireAt <= s.store.clock + c.ttl
      && forall id :: id in z.scores ==>
           && z.scores[id] <= z.expireAt
           && id in s.leases && key in s.leases[id].keys && z.scores[id] == s.leases[id].expiresAt
  }

  /** An unexpired, unreleased lease is in all its keys. */
  ghost predicate LeaseInv(c: Config, s: System, id: LeaseId) {
    id in s.leases ==>
      && s.leases[id].expiresAt <= s.store.clock + c.ttl
      && (Active(s, id) ==> forall key :: key in s.leases[id].keys ==> id in Members(s.store, key))
  }

  ghost predicate Inv(c: Config, s: System) {
    && c.ttl > 0
    && (forall key :: KeyInv(c, s, key))
    && (forall id :: LeaseInv(c, s, id))
  }

  lemma {:induction false} WithoutElements(keys: seq<Key>, key: Key, other: Key)
    ensures other in Without(keys, key) <==> other in keys && other != key
  {
    if keys != [] {
      WithoutElements(keys[1..], key, other);
    }
  }

  lemma SubmapSize(small: map<LeaseId, int>, large: map<LeaseId, int>)
    requires small.Keys <= large.Keys
    ensures |small| <= |large|
  {
    SubsetSize(small.Keys, large.Keys);
  }

  lemma {:induction false} SubsetSize(small: set<LeaseId>, large: set<LeaseId>)
    requires small <= large
    ensures |small| <= |large|
  {
    if small != {} {
      var x :| x in small;
      SubsetSize(small - {x}, large - {x});
    }
  }

  lemma InsertSize(m: map<LeaseId, int>, id: LeaseId, at: int)
    ensures |m[id := at]| <= |m| + 1
  {
    assert m[id := at].Keys == m.Keys + {id};
  }

  lemma TakeKeepsKey(c: Config, s: System, id: LeaseId, key: Key, k: Key)
    requires Inv(c, s) && Enabled(c, s, Take(id, key))
    ensures KeyInv(c, Apply(c, s, Take(id, key)), k)
  {
    assert KeyInv(c, s, k);
    var t := Apply(c, s, Take(id, key));
    var kept := After(Members(s.store, key), s.leases[id].expiresAt - c.ttl);
    if k == key && Granted(c, s, Take(id, key)) {
      InsertSize(kept, id, s.leases[id].expiresAt);
      assert t.store.sets[key] == ZSet(kept[id := s.leases[id].expiresAt], s.store.clock + c.ttl);
      assert LeaseInv(c, s, id);
      forall x | x in kept ensures kept[x] <= s.store.clock + c.ttl {
        assert LeaseInv(c, s, x);
      }
    } else if k == key {
      SubmapSize(kept, Members(s.store, key));
    }
  }

  lemma TakeKeepsLease(c: Config, s: System, id: LeaseId, key: Key, other: LeaseId)
    requires Inv(c, s) && Enabled(c, s, Take(id, key))
    ensures LeaseInv(c, Apply(c, s, Take(id, key)), other)
  {
    assert KeyInv(c, s, key) && LeaseInv(c, s, id) && LeaseInv(c, s, other);
  }

  lemma TakeKeepsInv(c: Config, s: System, id: LeaseId, key: Key)
    requires Inv(c, s) && Enabled(c, s, Take(id, key))
    ensures Inv(c, Apply(c, s, Take(id, key)))
  {
    forall k { TakeKeepsKey(c, s, id, key, k); }
    forall other { TakeKeepsLease(c, s, id, key, other); }
  }

  lemma GiveKeepsKey(c: Config, s: System, id: LeaseId, key: Key, k: Key)
    requires Inv(c, s) && Enabled(c, s, Give(id, key))
    ensures KeyInv(c, Apply(c, s, Give(id, key)), k)
  {
    assert KeyInv(c, s, k);
    if k == key {
      SubmapSize(Members(s.store, key) - {id}, Members(s.store, key));
    } else {
      WithoutElements(s.leases[id].keys, key, k);
    }
  }

  lemma GiveKeepsLease(c: Config, s: System, id: LeaseId, key: Key, other: LeaseId)
    requires Inv(c, s) && Enabled(c, s, Give(id, key))
    ensures LeaseInv(c, Apply(c, s, Give(id, key)), other)
  {
    assert LeaseInv(c, s, other);
    forall k { WithoutElements(s.leases[id].keys, key, k); }
  }

  lemma GiveKeepsInv(c: Config, s: System, id: LeaseId, key: Key)
    requires Inv(c, s) && Enabled(c, s, Give(id, key))
    ensures Inv(c, Apply(c, s, Give(id, key)))
  {
    forall k { GiveKeepsKey(c, s, id, key, k); }
    forall other { GiveKeepsLease(c, s, id, key, other); }
  }

  lemma RenewKeepsInv(c: Config, s: System, id: LeaseId, now: int)
    requires Inv(c, s) && Enabled(c, s, Renew(id, now))
    ensures Inv(c, Apply(c, s, Renew(id, now)))
  {
    var t := Apply(c, s, Renew(id, now));
    forall k ensures KeyInv(c, t, k) {
      assert KeyInv(c, s, k);
      if k in s.store.sets && id in s.store.sets[k].scores {
        assert s.store.sets[k].scores[id := now + c.ttl].Keys == s.store.sets[k].scores.Keys;
      }
    }
    forall other ensures LeaseInv(c, t, other) {
      assert LeaseInv(c, s, other);
    }
  }

  lemma ReapKeepsInv(c: Config, s: System, key: Key, now: int)
    requires Inv(c, s) && Enabled(c, s, Reap(key, now))
    ensures Inv(c, Apply(c, s, Reap(key, now)))
  {
    var t := Apply(c, s, Reap(key, now));
    SubmapSize(After(Members(s.store, key), now), Members(s.store, key));
    assert KeyInv(c, s, key);
    forall k ensures KeyInv(c, t, k) {
      assert KeyInv(c, s, k);
    }
    forall other ensures LeaseInv(c, t, other) {
      assert LeaseInv(c, s, other);
    }
  }

  lemma TickKeepsInv(c: Config, s: System, time: int)
    requires Inv(c, s) && Enabled(c, s, Tick(time))
    ensures Inv(c, Apply(c, s, Tick(time)))
  {
    var t := Apply(c, s, Tick(time));
    forall k ensures KeyInv(c, t, k) {
      assert KeyInv(c, s, k);
    }
    forall other ensures LeaseInv(c, t, other) {
      assert LeaseInv(c, s, other);
      forall k | Active(t, other) && k in t.leases[other].keys
        ensures other in Members(t.store, k)
      {
        assert KeyInv(c, s, k);
      }
    }
  }

  lemma BeginKeepsInv(c: Config, s: System, id: LeaseId, now: int)
    requires Inv(c, s) && Enabled(c, s, Begin(id, now))
    ensures Inv(c, Apply(c, s, Begin(id, now)))
  {
    var t := Apply(c, s, Begin(id, now));
    forall k ensures KeyInv(c, t, k) {
      assert KeyInv(c, s, k);
    }
    forall other ensures LeaseInv(c, t, other) {
      assert LeaseInv(c, s, other);
    }
  }

  /** Every step of every client, and time itself, keeps the invariant. */
  lemma StepKeepsInv(c: Config, s: System, step: Step)
    requires Inv(c, s)
    ensures Inv(c, Apply(c, s, step))
  {
    if Enabled(c, s, step) {
      match step {
        case Take(id, key) => TakeKeepsInv(c, s, id, key);
        case Give(id, key) => GiveKeepsInv(c, s, id, key);
        case Renew(id, now) => RenewKeepsInv(c, s, id, now);
        case Reap(key, now) => ReapKeepsInv(c, s, key, now);
        case Tick(time) => TickKeepsInv(c, s, time);
        case Begin(id, now) => BeginKeepsInv(c, s, id, now);
        case Register(key) =>
          var t := Apply(c, s, step);
          assert forall k :: KeyInv(c, s, k) ==> KeyInv(c, t, k);
          assert forall id :: LeaseInv(c, s, id) ==> LeaseInv(c, t, id);
      }
    }
  }

  lemma {:induction false} RunKeepsInv(c: Config, s: System, steps: seq<Step>)
    requires Inv(c, s)
    ensures Inv(c, Run(c, s, steps))
    decreases steps
  {
    if steps != [] {
      StepKeepsInv(c, s, steps[0]);
      RunKeepsInv(c, Apply(c, s, steps[0]), steps[1..]);
    }
  }

  // ---------------------------------------------------------------------------------------
  // Main results.

  /** The unexpired, unreleased leases on a key, as their holders count them. */
  ghost function Holders(s: System, key: Key): set<LeaseId> {
    set id | id in s.leases && Active(s, id) && key in s.leases[id].keys
  }

  lemma HoldersAreMembers(c: Config, s: System, key: Key)
    requires Inv(c, s)
    ensures Holders(s, key) == After(Members(s.store, key), s.store.clock).Keys
  {
    assert KeyInv(c, s, key);
    forall id ensures id in Holders(s, key) <==> id in After(Members(s.store, key), s.store.clock).Keys {
      assert LeaseInv(c, s, id);
    }
  }

  function Start(clock: int): System {
    System(Store(clock, map[], {}), map[])
  }

  /** Capacity over whole runs: from the empty system, whatever clients do, crash and however
      time passes, the leases alive on a key never exceed its limit. */
  lemma {:induction false} CapacityIsNeverExceeded(c: Config, clock: int, steps: seq<Step>, key: Key)
    requires c.ttl > 0
    ensures |Holders(Run(c, Start(clock), steps), key)| <= if c.limit(key) > 0 then c.limit(key) else 0
  {
    RunKeepsInv(c, Start(clock), steps);
    var s := Run(c, Start(clock), steps);
    HoldersAreMembers(c, s, key);
    SubmapSize(After(Members(s.store, key), s.store.clock), Members(s.store, key));
    assert KeyInv(c, s, key);
    assert |After(Members(s.store, key), s.store.clock)| == |Holders(s, key)|;
  }

  /** A lease that has not run out is never reported lost. */
  lemma RenewalOfActiveLeaseSucceeds(c: Config, s: System, id: LeaseId, now: int)
    requires Inv(c, s) && Active(s, id) && Enabled(c, s, Renew(id, now))
    ensures Granted(c, s, Renew(id, now))
    ensures Apply(c, s, Renew(id, now)).leases[id] == s.leases[id].(expiresAt := now + c.ttl)
  {
    assert LeaseInv(c, s, id);
  }

  /** Exact admission: an acquire that carries the current time is granted if and only if the
      leases alive on the key are fewer than its limit; expired members never block it. */
  lemma AdmissionIsExact(c: Config, s: System, id: LeaseId, key: Key)
    requires Inv(c, s) && Enabled(c, s, Take(id, key))
    requires s.leases[id].expiresAt == s.store.clock + c.ttl
    ensures Granted(c, s, Take(id, key)) <==> |Holders(s, key)| < c.limit(key)
  {
    HoldersAreMembers(c, s, key);
    assert |After(Members(s.store, key), s.store.clock)| == |After(Members(s.store, key), s.store.clock).Keys|;
  }

  /** A lease that holds no key is in no sorted set. */
  lemma NoKeysNoTrace(c: Config, s: System, id: LeaseId, key: Key)
    requires Inv(c, s)
    requires id in s.leases ==> s.leases[id].keys == []
    ensures id !in Members(s.store, key)
  {
    assert KeyInv(c, s, key);
  }
}
