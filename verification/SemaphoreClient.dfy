/** One client of the leased semaphores, looping over keys as the Go code does. Before each
    command the other clients may have taken any steps, read off `others`; a lease id is
    private to its holder, so steps of others that name it are skipped. */
module SemaphoreClient {
  import opened Semaphore
  import Text

  datatype Dimension = Dimension(name: string, value: string, limit: int)

  datatype Error = Unavailable | InvalidConfig | InvalidClaim

  datatype AcquireResult = Acquired(lease: Lease) | Limited | AcquireFailed(error: Error)
  datatype RenewResult = Renewed(lease: Lease) | Lost | RenewFailed(error: Error)

  function Underscore(s: string): (r: string)
    ensures |r| == |s|
    ensures ':' !in r
    ensures forall i :: 0 <= i < |s| ==> r[i] == if s[i] in ":\n\r\t " then '_' else s[i]
  {
    if s == "" then "" else [if s[0] in ":\n\r\t " then '_' else s[0]] + Underscore(s[1..])
  }

  function NormalizeKeyPart(value: string): (r: string)
    ensures ':' !in r
  {
    Underscore(Text.TrimSpace(value))
  }

  /** The sorted set of a dimension; blank names or values have none. */
  function KeyOf(prefix: string, d: Dimension): Key {
    var name, value := NormalizeKeyPart(d.name), NormalizeKeyPart(d.value);
    if name == "" || value == "" then "" else prefix + ":" + name + ":" + value
  }

  predicate Counts(prefix: string, d: Dimension) {
    d.limit > 0 && KeyOf(prefix, d) != ""
  }

  function OwnKeys(prefix: string, d: Dimension): seq<Key> {
    if Counts(prefix, d) then [KeyOf(prefix, d)] else []
  }

  /** The keys an acquire has to take, in order. */
  function KeysOf(prefix: string, dimensions: seq<Dimension>): seq<Key> {
    if dimensions == [] then [] else OwnKeys(prefix, dimensions[0]) + KeysOf(prefix, dimensions[1..])
  }

  // ---------------------------------------------------------------------------------------
  // Which keys those are.

  /** The part is the trimmed value with its colons and white space as underscores. */
  predicate NormalFor(value: string, part: string) {
    var t := Text.TrimSpace(value);
    && |part| == |t|
    && forall i :: 0 <= i < |t| ==> part[i] == if t[i] in {':', ' ', '\n', '\r', '\t'} then '_' else t[i]
  }

  /** A positive limit on something named and valued. */
  predicate Limits(d: Dimension) {
    d.limit > 0 && Text.TrimSpace(d.name) != "" && Text.TrimSpace(d.value) != ""
  }

  ghost predicate IsKey(prefix: string, d: Dimension, key: Key) {
    exists name, value ::
      NormalFor(d.name, name) && NormalFor(d.value, value) && key == prefix + ":" + name + ":" + value
  }

  /** One key for each dimension that limits, in their order. */
  ghost predicate KeysFor(prefix: string, dimensions: seq<Dimension>, keys: seq<Key>) {
    if dimensions == [] then keys == []
    else if !Limits(dimensions[0]) then KeysFor(prefix, dimensions[1..], keys)
    else keys != [] && IsKey(prefix, dimensions[0], keys[0]) && KeysFor(prefix, dimensions[1..], keys[1..])
  }

  lemma NormalIs(value: string, part: string)
    ensures NormalFor(value, part) <==> part == NormalizeKeyPart(value)
  {
    var t, r := Text.TrimSpace(value), NormalizeKeyPart(value);
    forall i | 0 <= i < |t| ensures r[i] == if t[i] in {':', ' ', '\n', '\r', '\t'} then '_' else t[i] {
    }
  }

  lemma CountsAndKey(prefix: string, d: Dimension, key: Key)
    ensures Counts(prefix, d) <==> Limits(d)
    ensures Limits(d) ==> (IsKey(prefix, d, key) <==> key == KeyOf(prefix, d))
  {
    NormalIs(d.name, NormalizeKeyPart(d.name));
    NormalIs(d.value, NormalizeKeyPart(d.value));
    if name, value :| NormalFor(d.name, name) && NormalFor(d.value, value) && key == prefix + ":" + name + ":" + value {
      NormalIs(d.name, name);
      NormalIs(d.value, value);
    }
  }

  /** Those are the keys that an acquire takes. */
  lemma {:induction false} KeysOfAre(prefix: string, dimensions: seq<Dimension>, keys: seq<Key>)
    ensures KeysFor(prefix, dimensions, keys) <==> keys == KeysOf(prefix, dimensions)
  {
    if dimensions != [] {
      var d := dimensions[0];
      CountsAndKey(prefix, d, if keys == [] then "" else keys[0]);
      KeysOfAre(prefix, dimensions[1..], if Limits(d) && keys != [] then keys[1..] else keys);
      HeadAndRest(keys, KeyOf(prefix, d), KeysOf(prefix, dimensions[1..]));
    }
  }

  lemma HeadAndRest(keys: seq<Key>, first: Key, rest: seq<Key>)
    ensures keys == [first] + rest <==> keys != [] && keys[0] == first && keys[1..] == rest
    ensures [] + rest == rest
  {
  }

  lemma JoinsLast(first: seq<Key>, middle: seq<Key>, last: seq<Key>)
    ensures first + (middle + last) == first + middle + last
  {
  }

  lemma {:induction false} KeysOfSnoc(prefix: string, dimensions: seq<Dimension>, d: Dimension)
    ensures KeysOf(prefix, dimensions + [d]) == KeysOf(prefix, dimensions) + OwnKeys(prefix, d)
  {
    if dimensions != [] {
      assert (dimensions + [d])[1..] == dimensions[1..] + [d];
      KeysOfSnoc(prefix, dimensions[1..], d);
      JoinsLast(OwnKeys(prefix, dimensions[0]), KeysOf(prefix, dimensions[1..]), OwnKeys(prefix, d));
    } else {
      assert dimensions + [d] == [d] && [d][1..] == [];
      JoinsLast(OwnKeys(prefix, d), [], []);
    }
  }

  lemma SplitKey(prefix: string, name: string, value: string)
    requires ':' !in name && ':' !in value
    ensures Text.Split((prefix + ":" + name + ":" + value)[|prefix| + 1..], ':') == [name, value]
  {
    assert (prefix + ":" + name + ":" + value)[|prefix| + 1..] == name + ":" + value;
    Text.SplitField(name, value, ':');
    Text.SplitWhole(value, ':');
  }

  lemma PartsAreDetermined(prefix: string, dn: string, dv: string, en: string, ev: string)
    requires ':' !in dn && ':' !in dv && ':' !in en && ':' !in ev
    requires prefix + ":" + dn + ":" + dv == prefix + ":" + en + ":" + ev
    ensures dn == en && dv == ev
  {
    SplitKey(prefix, dn, dv);
    SplitKey(prefix, en, ev);
    assert [dn, dv][0] == [en, ev][0] && [dn, dv][1] == [en, ev][1];
  }

  /** Different normalized names or values never share a semaphore. */
  lemma KeysAreInjective(prefix: string, d: Dimension, e: Dimension)
    requires KeyOf(prefix, d) == KeyOf(prefix, e) != ""
    ensures NormalizeKeyPart(d.name) == NormalizeKeyPart(e.name)
    ensures NormalizeKeyPart(d.value) == NormalizeKeyPart(e.value)
  {
    PartsAreDetermined(prefix, NormalizeKeyPart(d.name), NormalizeKeyPart(d.value), NormalizeKeyPart(e.name),
      NormalizeKeyPart(e.value));
  }

  predicate Foreign(step: Step, id: LeaseId) {
    (step.Begin? || step.Take? || step.Give? || step.Renew?) ==> step.id != id
  }

  function OthersOnly(steps: seq<Step>, id: LeaseId): (r: seq<Step>)
    ensures forall step :: step in r ==> Foreign(step, id)
  {
    if steps == [] then []
    else (if Foreign(steps[0], id) then [steps[0]] else []) + OthersOnly(steps[1..], id)
  }

  /** Steps of others that are foreign already are all taken. */
  lemma {:induction false} ForeignStepsAreTaken(steps: seq<Step>, id: LeaseId)
    requires forall i :: 0 <= i < |steps| ==> Foreign(steps[i], id)
    ensures OthersOnly(steps, id) == steps
  {
    if steps != [] {
      ForeignStepsAreTaken(steps[1..], id);
    }
  }

  /** What is known about one lease: whether it exists, and its record. No key is forgotten. */
  ghost predicate SameLease(s: System, t: System, id: LeaseId) {
    && (id in s.leases <==> id in t.leases)
    && (id in s.leases ==> s.leases[id] == t.leases[id])
    && s.store.clock <= t.store.clock && s.store.registered <= t.store.registered
  }

  /** Reaping knows all the keys. */
  predicate AllRegistered(s: System, keys: seq<Key>) {
    forall key :: key in keys ==> key in s.store.registered
  }

  lemma {:induction false} ForeignRunKeepsLease(c: Config, s: System, steps: seq<Step>, id: LeaseId)
    requires forall step :: step in steps ==> Foreign(step, id)
    ensures SameLease(s, Run(c, s, steps), id)
    decreases steps
  {
    if steps != [] {
      assert Foreign(steps[0], id);
      assert SameLease(s, Apply(c, s, steps[0]), id);
      ForeignRunKeepsLease(c, Apply(c, s, steps[0]), steps[1..], id);
    }
  }

  /** Room on a key at time `now`. */
  ghost predicate Room(c: Config, s: System, key: Key, now: int) {
    |After(Members(s.store, key), now)| < c.limit(key)
  }

  ghost predicate AllRoom(c: Config, s: System, keys: seq<Key>, now: int) {
    forall key :: key in keys ==> Room(c, s, key, now)
  }

  /** An undisturbed acquire, having taken `keys`: they had room, the other keys are as before. */
  ghost predicate TakenSoFar(c: Config, before: System, s: System, keys: seq<Key>, now: int) {
    && (forall key :: key !in keys ==> Members(s.store, key) == Members(before.store, key))
    && AllRoom(c, before, keys, now)
  }

  lemma UndisturbedTake(c: Config, before: System, s: System, id: LeaseId, key: Key, keys: seq<Key>, now: int)
    requires TakenSoFar(c, before, s, keys, now) && key !in keys
    requires Enabled(c, s, Take(id, key)) && s.leases[id].expiresAt == now + c.ttl
    ensures Granted(c, s, Take(id, key)) == Room(c, before, key, now)
    ensures Granted(c, s, Take(id, key)) ==> TakenSoFar(c, before, Apply(c, s, Take(id, key)), keys + [key], now)
  {
  }

  predicate Distinct(keys: seq<Key>) {
    forall i, j :: 0 <= i < j < |keys| ==> keys[i] != keys[j]
  }

  lemma {:induction false} KeysOfNext(prefix: string, dimensions: seq<Dimension>, i: nat)
    requires i < |dimensions|
    ensures KeysOf(prefix, dimensions[..i + 1])
         == KeysOf(prefix, dimensions[..i])
            + if Counts(prefix, dimensions[i]) then [KeyOf(prefix, dimensions[i])] else []
  {
    assert dimensions[..i + 1] == dimensions[..i] + [dimensions[i]];
    KeysOfSnoc(prefix, dimensions[..i], dimensions[i]);
  }

  lemma {:induction false} KeysOfPrefix(prefix: string, dimensions: seq<Dimension>, i: nat)
    requires i <= |dimensions|
    ensures KeysOf(prefix, dimensions[..i]) <= KeysOf(prefix, dimensions)
    decreases |dimensions| - i
  {
    if i < |dimensions| {
      KeysOfNext(prefix, dimensions, i);
      KeysOfPrefix(prefix, dimensions, i + 1);
    } else {
      assert dimensions[..i] == dimensions;
    }
  }

  /** A key still to be taken is one of all the keys, and a new one when they are distinct. */
  lemma {:induction false} NextKey(prefix: string, dimensions: seq<Dimension>, i: nat)
    requires i < |dimensions| && Counts(prefix, dimensions[i])
    ensures KeyOf(prefix, dimensions[i]) in KeysOf(prefix, dimensions)
    ensures Distinct(KeysOf(prefix, dimensions)) ==> KeyOf(prefix, dimensions[i]) !in KeysOf(prefix, dimensions[..i])
  {
    var all, taken := KeysOf(prefix, dimensions), KeysOf(prefix, dimensions[..i]);
    KeysOfNext(prefix, dimensions, i);
    KeysOfPrefix(prefix, dimensions, i + 1);
    assert all[|taken|] == KeyOf(prefix, dimensions[i]);
    assert forall j :: 0 <= j < |taken| ==> all[j] == taken[j];
  }

  /** Of these keys nothing is left that ran out by `now`. */
  ghost predicate Reaped(after: Store, keys: set<Key>, now: int) {
    forall key, id :: key in keys && id in Members(after, key) ==> Members(after, key)[id] > now
  }

  /** What outlives `now` is still there. */
  ghost predicate AliveKept(before: Store, after: Store, now: int) {
    forall key, id :: id in Members(before, key) && Members(before, key)[id] > now ==>
      id in Members(after, key) && Members(after, key)[id] == Members(before, key)[id]
  }

  lemma ReapOneMore(c: Config, before: Store, s: System, keys: set<Key>, key: Key, now: int)
    requires now <= s.store.clock
    ensures Reaped(s.store, keys, now) ==> Reaped(Apply(c, s, Reap(key, now)).store, keys + {key}, now)
    ensures AliveKept(before, s.store, now) ==> AliveKept(before, Apply(c, s, Reap(key, now)).store, now)
  {
    var t := Apply(c, s, Reap(key, now)).store;
    assert Members(t, key) == After(Members(s.store, key), now);
    assert forall k :: k != key ==> Members(t, k) == Members(s.store, k);
  }

  class RedisConcurrencyLimiter {
    const prefix: string
    const config: Config
    var system: System
    var others: seq<seq<Step>>

    ghost predicate Valid()
      reads this
    {
      Inv(config, system)
    }

    constructor (queueName: string, config: Config, system: System, others: seq<seq<Step>>)
      requires Inv(config, system)
      ensures Valid() && this.system == system && this.others == others && this.config == config
      ensures prefix == Text.TrimSpace(queueName) + ":concurrency"
    {
      this.prefix := Text.TrimSpace(queueName) + ":concurrency";
      this.config, this.system, this.others := config, system, others;
    }

    method Interfere(mine: LeaseId)
      requires Valid()
      modifies this`system, this`others
      ensures Valid() && SameLease(old(system), system, mine)
      ensures old(others) == [] ==> system == old(system) && others == []
      ensures old(others) != [] ==>
        system == Run(config, old(system), OthersOnly(old(others)[0], mine)) && others == old(others)[1..]
    {
      if others != [] {
        var steps := OthersOnly(others[0], mine);
        ForeignRunKeepsLease(config, system, steps, mine);
        RunKeepsInv(config, system, steps);
        others := others[1..];
        for i := 0 to |steps|
          invariant Run(config, system, steps[i..]) == Run(config, old(system), steps)
          invariant others == old(others)[1..]
        {
          assert steps[i..][1..] == steps[i + 1..];
          system := Apply(config, system, steps[i]);
        }
        assert steps[|steps|..] == [];
      }
    }

    method Perform(step: Step) returns (ok: bool)
      requires Valid() && Enabled(config, system, step)
      modifies this`system
      ensures Valid() && system == Apply(config, old(system), step)
      ensures ok == Granted(config, old(system), step)
    {
      StepKeepsInv(config, system, step);
      ok := Granted(config, system, step);
      system := Apply(config, system, step);
    }

    /** Gives every key of the list back; what the lease took otherwise it keeps. */
    method Release(id: LeaseId, keys: seq<Key>)
      requires Valid() && id in system.leases
      modifies this`system, this`others
      ensures Valid() && id in system.leases
      ensures system.leases[id].expiresAt == old(system).leases[id].expiresAt
      ensures forall key :: key in system.leases[id].keys <==> key in old(system).leases[id].keys && key !in keys
      ensures forall key :: key in keys ==> id !in Members(system.store, key)
      ensures old(system).leases[id].keys == keys ==> forall key :: id !in Members(system.store, key)
      ensures old(system).store.clock <= system.store.clock
    {
      for i := 0 to |keys|
        invariant Valid() && id in system.leases && old(system).store.clock <= system.store.clock
        invariant system.leases[id].expiresAt == old(system).leases[id].expiresAt
        invariant forall key :: key in system.leases[id].keys <==>
          key in old(system).leases[id].keys && key !in keys[..i]
      {
        Interfere(id);
        forall key { WithoutElements(system.leases[id].keys, keys[i], key); }
        var _ := Perform(Give(id, keys[i]));
      }
      forall key | key !in system.leases[id].keys ensures id !in Members(system.store, key) {
        assert KeyInv(config, system, key);
      }
    }

    /** The acquire script on one key, for a lease that holds `keys` so far. */
    method AcquireKey(id: LeaseId, key: Key, keys: seq<Key>, now: int, ghost before: System) returns (ok: bool)
      requires Valid() && now <= system.store.clock && config.limit(key) > 0
      requires id in system.leases && system.leases[id] == Lease(now + config.ttl, keys)
      modifies this`system, this`others
      ensures Valid() && now <= system.store.clock && id in system.leases
      ensures old(system).store.registered <= system.store.registered
      ensures system.leases[id] == Lease(now + config.ttl, if ok then keys + [key] else keys)
      ensures old(others) == [] && key !in keys && TakenSoFar(config, before, old(system), keys, now) ==>
        && others == []
        && ok == Room(config, before, key, now)
        && (ok ==> TakenSoFar(config, before, system, keys + [key], now))
    {
      Interfere(id);
      ghost var s := system;
      ok := Perform(Take(id, key));
      if old(others) == [] && key !in keys && TakenSoFar(config, before, s, keys, now) {
        UndisturbedTake(config, before, s, id, key, keys, now);
      }
    }

    /** `SADD` of the key to the set that reaping walks over. */
    method RegisterKey(id: LeaseId, key: Key)
      requires Valid() && id in system.leases
      modifies this`system, this`others
      ensures Valid() && SameLease(old(system), system, id)
      ensures old(others) == [] ==> others == [] && system.store.sets == old(system).store.sets
      ensures key in system.store.registered
    {
      Interfere(id);
      var _ := Perform(Register(key));
    }

    /** One key: it is taken, and then registered, or it has no room. */
    method AcquireNext(id: LeaseId, key: Key, keys: seq<Key>, now: int, ghost before: System) returns (ok: bool)
      requires Valid() && now <= system.store.clock && config.limit(key) > 0
      requires id in system.leases && system.leases[id] == Lease(now + config.ttl, keys)
      requires AllRegistered(system, keys)
      modifies this`system, this`others
      ensures Valid() && now <= system.store.clock && id in system.leases
      ensures system.leases[id] == Lease(now + config.ttl, if ok then keys + [key] else keys)
      ensures ok ==> AllRegistered(system, keys + [key])
      ensures old(others) == [] && key !in keys && TakenSoFar(config, before, old(system), keys, now) ==>
        && others == []
        && ok == Room(config, before, key, now)
        && (ok ==> TakenSoFar(config, before, system, keys + [key], now))
    {
      ok := AcquireKey(id, key, keys, now, before);
      if ok {
        RegisterKey(id, key);
      }
    }

    /** Takes every key or none: a granted lease holds exactly the keys of its dimensions until
        `now + ttl`, and reaping knows them; a limited acquire leaves its id in no sorted set, whoever interfered. With
        nobody interfering it is granted exactly when every key has room. */
    method Acquire(id: LeaseId, dimensions: seq<Dimension>, ttl: int, now: int) returns (r: AcquireResult)
      requires Valid() && id !in system.leases && now <= system.store.clock
      requires ttl > 0 ==> ttl == config.ttl
      requires forall d :: d in dimensions && Counts(prefix, d) ==> config.limit(KeyOf(prefix, d)) == d.limit
      modifies this`system, this`others
      ensures Valid()
      ensures r.AcquireFailed? <==> ttl <= 0
      ensures r.AcquireFailed? ==> r.error == InvalidConfig && system == old(system)
      ensures r.Acquired? ==>
        id in system.leases && system.leases[id] == r.lease == Lease(now + ttl, KeysOf(prefix, dimensions))
      ensures r.Acquired? ==> KeysFor(prefix, dimensions, r.lease.keys) && AllRegistered(system, r.lease.keys)
      ensures r.Limited? ==> forall key :: id !in Members(system.store, key)
      ensures ttl > 0 && old(others) == [] && Distinct(KeysOf(prefix, dimensions)) ==>
        (r.Acquired? <==> AllRoom(config, old(system), KeysOf(prefix, dimensions), now))
      ensures forall keys :: KeysFor(prefix, dimensions, keys) && Distinct(keys) && ttl > 0 && old(others) == [] ==>
        (r.Acquired? <==> AllRoom(config, old(system), keys, now))
    {
      forall keys ensures KeysFor(prefix, dimensions, keys) <==> keys == KeysOf(prefix, dimensions) {
        KeysOfAre(prefix, dimensions, keys);
      }
      if ttl <= 0 {
        return AcquireFailed(InvalidConfig);
      }
      var _ := Perform(Begin(id, now));
      var keys: seq<Key> := [];
      ghost var quiet := old(others) == [] && Distinct(KeysOf(prefix, dimensions));
      assert dimensions[..0] == [];
      for i := 0 to |dimensions|
        invariant Valid() && now <= system.store.clock
        invariant id in system.leases && system.leases[id] == Lease(now + ttl, keys)
        invariant keys == KeysOf(prefix, dimensions[..i]) && AllRegistered(system, keys)
        invariant quiet ==> others == [] && TakenSoFar(config, old(system), system, keys, now)
      {
        KeysOfNext(prefix, dimensions, i);
        if !Counts(prefix, dimensions[i]) {
          continue;
        }
        var key := KeyOf(prefix, dimensions[i]);
        NextKey(prefix, dimensions, i);
        var ok := AcquireNext(id, key, keys, now, old(system));
        if !ok {
          Release(id, keys);
          return Limited;
        }
        keys := keys + [key];
      }
      assert dimensions[..|dimensions|] == dimensions;
      return Acquired(Lease(now + ttl, keys));
    }

    /** Renews all keys or none. `Lost` is only ever reported for a lease that has run out. */
    method Renew(id: LeaseId, lease: Lease, ttl: int, now: int) returns (r: RenewResult)
      requires Valid() && id in system.leases && system.leases[id] == lease && now <= system.store.clock
      requires ttl > 0 ==> ttl == config.ttl && now + ttl >= lease.expiresAt
      modifies this`system, this`others
      ensures Valid() && id in system.leases
      ensures r.RenewFailed? <==> ttl <= 0 || Text.TrimSpace(id) == ""
      ensures r.RenewFailed? ==> system == old(system)
      ensures r.Renewed? ==> system.leases[id] == r.lease == Lease(now + ttl, lease.keys)
      ensures r.Lost? ==> system.leases[id] == lease && !Active(system, id)
      ensures forall key :: r.Renewed? && key in lease.keys ==>
        id in Members(system.store, key) && Members(system.store, key)[id] == now + ttl
    {
      if ttl <= 0 {
        return RenewFailed(InvalidConfig);
      }
      if Text.TrimSpace(id) == "" {
        return RenewFailed(InvalidClaim);
      }
      Interfere(id);
      ghost var before := system;
      var ok := Perform(Semaphore.Renew(id, now));
      if !ok {
        if Active(before, id) {
          RenewalOfActiveLeaseSucceeds(config, before, id, now);
        }
        return Lost;
      }
      r := Renewed(Lease(now + ttl, lease.keys));
    }

    /** Reaps every registered key. Nothing alive is removed; with nobody interfering nothing
        that ran out by `now` is left. */
    method ReapStale(now: int)
      requires Valid() && now <= system.store.clock
      modifies this`system, this`others
      ensures Valid()
      ensures old(others) == [] ==>
        forall key, id :: key in old(system).store.registered && id in Members(system.store, key) ==>
          Members(system.store, key)[id] > now
      ensures old(others) == [] ==>
        forall key, id :: id in Members(old(system).store, key) && Members(old(system).store, key)[id] > now ==>
          id in Members(system.store, key)
    {
      ghost var before := system.store;
      Interfere("");
      var left := system.store.registered;
      while left != {}
        invariant Valid() && now <= system.store.clock
        invariant old(others) == [] ==> others == []
        invariant old(others) == [] ==>
          Reaped(system.store, before.registered - left, now) && AliveKept(before, system.store, now)
        decreases left
      {
        var key :| key in left;
        left := left - {key};
        Interfere("");
        ghost var s := system;
        var _ := Perform(Reap(key, now));
        ReapOneMore(config, before, s, before.registered - left - {key}, key, now);
      }
    }
  }
}
