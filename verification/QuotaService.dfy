/** The quota transactions as the service runs them: rows are locked, updated and guarded one
    statement at a time, and an error rolls the transaction back. Each is proved equal to its
    transaction of `QuotaLedger`; since those never fail on the counter, the guarded-delta
    failure and the negative-counter failure are unreachable while the ledger agrees. */
module QuotaService {
  import opened QuotaEffects
  import opened QuotaLedger
  import opened Wrappers

  class QuotaStore {
    var assets: seq<Asset>
    var reservations: seq<Reservation>
    var counter: Option<Counter>
    const maxBytes: Option<int>

    constructor (ledger: Ledger, maxBytes: Option<int>)
      ensures Current() == ledger && this.maxBytes == maxBytes
    {
      assets, reservations, counter := ledger.assets, ledger.reservations, ledger.counter;
      this.maxBytes := maxBytes;
    }

    function Current(): Ledger
      reads this
    {
      Ledger(assets, reservations, counter)
    }

    method Rollback(ledger: Ledger)
      modifies this
      ensures Current() == ledger
    {
      assets, reservations, counter := ledger.assets, ledger.reservations, ledger.counter;
    }

    method MetadataUsedBytes() returns (total: int)
      ensures total == Used(assets)
    {
      total := 0;
      for i := 0 to |assets|
        invariant total + Used(assets[i..]) == Used(assets)
      {
        assert assets[i..][1..] == assets[i + 1..];
        if !assets[i].purged {
          total := total + assets[i].size;
        }
      }
    }

    /** Reservations that are still open and have not expired. */
    method ActiveReservedBytes(now: int) returns (total: int)
      requires forall r :: r in reservations && r.status == Reserved ==> r.expiresAt > now
      ensures total == Open(reservations)
    {
      total := 0;
      for i := 0 to |reservations|
        invariant total + Open(reservations[i..]) == Open(reservations)
      {
        assert reservations[i..][1..] == reservations[i + 1..];
        if reservations[i].status == Reserved && reservations[i].expiresAt > now {
          total := total + reservations[i].bytes;
        }
      }
    }

    /** The counter, created from the rows if it is missing; a negative one is refused. */
    method EnsureCounter() returns (error: Option<Error>)
      modifies this`counter
      ensures error == if Broken(Ensured(old(Current())).counter.value) then Some(CounterInvalid) else None
      ensures Current() == if old(counter) == None && Used(assets) < 0 then old(Current()) else Ensured(old(Current()))
    {
      if counter == None {
        var used := MetadataUsedBytes();
        if used < 0 {
          return Some(CounterInvalid);
        }
        counter := Some(Counter(used, 0));
      }
      error := if counter.value.used < 0 || counter.value.reserved < 0 then Some(CounterInvalid) else None;
    }

    /** `UPDATE … SET used = used + a, reserved = reserved + b WHERE used >= -a AND reserved >= -b`. */
    method ApplyDelta(usedDelta: int, reservedDelta: int) returns (error: Option<Error>)
      modifies this`counter
      ensures error == None <==>
        old(counter).Some? && (usedDelta < 0 ==> old(counter).value.used >= -usedDelta)
        && (reservedDelta < 0 ==> old(counter).value.reserved >= -reservedDelta)
      ensures error == None ==>
        counter == Some(Counter(old(counter).value.used + usedDelta, old(counter).value.reserved + reservedDelta))
      ensures error != None ==> error == Some(CounterInvalid) && counter == old(counter)
    {
      if counter == None
         || (usedDelta < 0 && !(counter.value.used >= -usedDelta))
         || (reservedDelta < 0 && !(counter.value.reserved >= -reservedDelta)) {
        return Some(CounterInvalid);
      }
      counter := Some(Counter(counter.value.used + usedDelta, counter.value.reserved + reservedDelta));
      return None;
    }

    lemma CounterCovers(l: Ledger)
      requires Agrees(l)
      ensures Used(l.assets) >= 0 && (l.counter.Some? ==> !Broken(l.counter.value))
    {
      UsedNonNegative(l.assets);
      OpenNonNegative(l.reservations);
    }

    method Reserve(pending: int, now: int) returns (error: Option<Error>, handle: Handle)
      requires Agrees(Current())
      modifies this
      ensures (Current(), error, handle) == ReserveTx(old(Current()), pending, maxBytes, now)
      ensures Reserves(old(Current()), Current(), error, handle, pending, maxBytes, now)
      ensures Agrees(Current()) && error != Some(CounterInvalid)
    {
      ReserveDoes(Current(), pending, maxBytes, now);
      ReserveAgrees(Current(), pending, maxBytes, now);
      handle := Handle(None, 0);
      if pending < 0 {
        return Some(Validation), handle;
      }
      if pending == 0 {
        return None, handle;
      }
      CounterCovers(Current());
      error := EnsureCounter();
      if maxBytes.Some? {
        var c, max := counter.value, maxBytes.value;
        if QuotaGuard(c.used, c.reserved, pending, max) {
          EnsuredAgrees(old(Current()));
          CounterCovers(Current());
          return Some(QuotaExceeded), handle;
        }
      }
      EnsuredAgrees(old(Current()));
      CounterCovers(Current());
      reservations := reservations + [Reservation(pending, 0, Reserved, now + RESERVATION_TTL)];
      error := ApplyDelta(0, pending);
      handle := Handle(Some(|reservations| - 1), pending);
    }

    /** The finalize transaction, also when it runs inside a larger one that has already
        written asset rows. */
    method Finalize(h: Handle, finalized: int) returns (error: Option<Error>)
      requires RowsOk(Current())
      requires counter.Some? ==> counter.value.used >= 0 && counter.value.reserved == Open(reservations)
      requires counter == None ==> forall r :: r in reservations ==> r.status != Reserved
      modifies this
      ensures (Current(), error) == FinalizeTx(old(Current()), h, finalized)
      ensures Finalizes(old(Current()), Current(), error, h, finalized)
      ensures error != Some(CounterInvalid)
    {
      FinalizeDoes(Current(), h, finalized);
      if h.id == None && h.bytes == 0 && finalized == 0 {
        return None;
      }
      if finalized < 0 || finalized > h.bytes {
        return Some(Validation);
      }
      var before := Current();
      OpenNonNegative(reservations);
      UsedNonNegative(assets);
      error := EnsureCounter();
      if h.id == None {
        Rollback(before);
        return Some(ReservationInvalid);
      }
      var id := h.id.value;
      if id >= |reservations| {
        Rollback(before);
        return Some(NotFound);
      }
      var record := reservations[id];
      if record.bytes < 0 || record.finalizedBytes < 0 || record.bytes != h.bytes {
        Rollback(before);
        return Some(ReservationInvalid);
      }
      if record.status == Finalized && record.finalizedBytes == finalized {
        return None;
      }
      if record.status == Released && finalized == 0 {
        return None;
      }
      if record.status != Reserved {
        Rollback(before);
        return Some(ReservationInvalid);
      }
      OpenCovers(reservations, id);
      var status := if finalized == 0 then Released else Finalized;
      reservations := reservations[id := record.(status := status, finalizedBytes := finalized)];
      error := ApplyDelta(finalized, -record.bytes);
    }

    method Release(h: Handle) returns (error: Option<Error>)
      requires Agrees(Current())
      modifies this
      ensures (Current(), error) == ReleaseTx(old(Current()), h)
      ensures Releases(old(Current()), Current(), error, h)
      ensures Agrees(Current()) && error != Some(CounterInvalid)
    {
      ReleaseDoes(Current(), h);
      ReleaseAgrees(Current(), h);
      if h.id == None && h.bytes == 0 {
        return None;
      }
      var before := Current();
      CounterCovers(Current());
      error := EnsureCounter();
      EnsuredAgrees(before);
      if h.id == None {
        Rollback(before);
        return Some(ReservationInvalid);
      }
      var id := h.id.value;
      if id >= |reservations| || reservations[id].status != Reserved {
        return None;
      }
      var record := reservations[id];
      OpenCovers(reservations, id);
      reservations := reservations[id := record.(status := Released)];
      error := ApplyDelta(0, -record.bytes);
    }

    /** Writes the rows of an upload's assets and adds up their sizes. */
    method InsertAssets(sizes: seq<int>) returns (total: int)
      modifies this`assets
      ensures assets == old(assets) + NewAssets(sizes) && total == Total(sizes)
    {
      total := 0;
      for i := 0 to |sizes|
        invariant assets + NewAssets(sizes[i..]) == old(assets) + NewAssets(sizes)
        invariant total + Total(sizes[i..]) == Total(sizes)
      {
        assert sizes[i..][1..] == sizes[i + 1..];
        assert NewAssets(sizes[i..]) == [Asset(sizes[i], None, false)] + NewAssets(sizes[i + 1..]);
        assets := assets + [Asset(sizes[i], None, false)];
        total := total + sizes[i];
      }
      assert assets == old(assets) + NewAssets(sizes);
    }

    /** An upload's commit: the asset rows, then the finalize, in one transaction. */
    method Commit(h: Handle, sizes: seq<int>) returns (error: Option<Error>)
      requires Agrees(Current()) && forall n :: n in sizes ==> n >= 0
      modifies this
      ensures (Current(), error) == CommitTx(old(Current()), h, sizes)
      ensures Commits(old(Current()), Current(), error, h, sizes)
      ensures Proper(old(Current()), Step.Commit(h, sizes)) ==> Agrees(Current())
      ensures error != Some(CounterInvalid)
    {
      CommitDoes(Current(), h, sizes);
      var before := Current();
      CommitAgrees(before, h, sizes);
      CounterCovers(before);
      UsedNew(sizes);
      var finalizedBytes := InsertAssets(sizes);
      error := Finalize(h, finalizedBytes);
      if error != None {
        Rollback(before);
      }
    }

    /** Releases every open reservation that has expired, in one `UPDATE`. */
    method ReleaseStale(now: int)
      modifies this`reservations
      ensures reservations == Expire(old(reservations), now)
    {
      ghost var rs := reservations;
      var i := 0;
      while i < |reservations|
        invariant 0 <= i <= |reservations| == |rs|
        invariant reservations[i..] == rs[i..]
        invariant reservations[..i] + Expire(rs[i..], now) == Expire(rs, now)
      {
        assert rs[i..][0] == rs[i] == reservations[i] && rs[i..][1..] == rs[i + 1..];
        ghost var done := reservations[..i];
        if reservations[i].status == Reserved && reservations[i].expiresAt <= now {
          reservations := reservations[i := reservations[i].(status := Released)];
        }
        assert reservations[..i + 1] == done + [reservations[i]];
        i := i + 1;
      }
      assert reservations == reservations[..i] + Expire([], now);
    }

    /** Expires what is due, then writes the two sums, also over a counter that has drifted. */
    method Reconcile(now: int) returns (error: Option<Error>)
      requires RowsOk(Current())
      modifies this
      ensures (Current(), error) == ReconcileTx(old(Current()), now)
      ensures Reconciles(old(Current()), Current(), error, now)
      ensures error == None ==> Agrees(Current())
    {
      ReconcileDoes(Current(), now);
      ReconcileAgrees(Current(), now);
      UsedNonNegative(assets);
      ExpireRows(reservations, now);
      error := EnsureCounter();
      if error != None {
        return;
      }
      ReleaseStale(now);
      var used := MetadataUsedBytes();
      var reserved := ActiveReservedBytes(now);
      counter := Some(Counter(used, reserved));
    }

    /** `DecrementStorageQuotaUsedBytes`: fails, changing nothing, when the counter is or would
        become negative. */
    method Decrement(bytes: int) returns (error: Option<Error>)
      modifies this
      ensures (Current(), error) == DecrementTx(old(Current()), bytes)
      ensures Decrements(old(Current()), Current(), error, bytes)
    {
      DecrementDoes(Current(), bytes);
      if bytes < 0 {
        return Some(Validation);
      }
      if bytes == 0 {
        return None;
      }
      var before := Current();
      error := EnsureCounter();
      if error == None && bytes > counter.value.used {
        error := Some(CounterInvalid);
      }
      if error == None {
        error := ApplyDelta(-bytes, 0);
      }
      if error != None {
        Rollback(before);
      }
    }

    /** Purging creates the counter before it marks the row, so that the decrement is not taken
        from a counter that has already left the row out. */
    method Purge(id: nat) returns (error: Option<Error>)
      requires Agrees(Current())
      modifies this
      ensures (Current(), error) == PurgeTx(old(Current()), id)
      ensures Purges(old(Current()), Current(), error, id)
      ensures Agrees(Current()) && error != Some(CounterInvalid)
    {
      PurgeDoes(Current(), id);
      var before := Current();
      PurgeAgrees(before, id);
      CounterCovers(before);
      error := EnsureCounter();
      EnsuredAgrees(before);
      if id >= |assets| || assets[id].deletedAt == None || assets[id].purged {
        Rollback(before);
        return Some(NotFound);
      }
      UsedCovers(assets, id);
      assert assets[id] in assets;
      assets := assets[id := assets[id].(purged := true)];
      error := Decrement(assets[id].size);
    }
  }
}
