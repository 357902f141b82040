/** What each quota transaction does to the rows and the counter, row by row and byte by byte. */
module QuotaEffects {
  import opened QuotaLedger
  import opened Wrappers

  /** The counter, if there is none yet taken from the asset rows, has moved by these bytes. */
  predicate CounterMoves(l: Ledger, m: Ledger, used: int, reserved: int) {
    var before := if l.counter.Some? then l.counter.value else Counter(Used(l.assets), 0);
    m.counter == Some(Counter(before.used + used, before.reserved + reserved))
  }

  /** Of the reservations one has changed, to this. */
  predicate RowBecomes(l: Ledger, m: Ledger, i: nat, r: Reservation) {
    && |m.reservations| == |l.reservations| && i < |l.reservations| && m.reservations[i] == r
    && forall j :: 0 <= j < |l.reservations| && j != i ==> m.reservations[j] == l.reservations[j]
  }

  predicate NamesRow(l: Ledger, h: Handle) {
    h.id.Some? && h.id.value < |l.reservations|
  }

  /** A reservation is refused if and only if it is negative or, with a maximum, no longer fits beside what
      is used and reserved; else there is one open row more, for 24 hours, and its bytes are reserved. */
  predicate Reserves(l: Ledger, m: Ledger, error: Option<Error>, h: Handle, pending: int, max: Option<int>, now: int) {
    var c := if l.counter.Some? then l.counter.value else Counter(Used(l.assets), 0);
    if pending < 0 then error == Some(Validation) && m == l && h == Handle(None, 0)
    else if pending == 0 then error == None && m == l && h == Handle(None, 0)
    else if max.Some? && c.used + c.reserved + pending > max.value then
      && error == Some(QuotaExceeded) && h == Handle(None, 0)
      && m.assets == l.assets && m.reservations == l.reservations && CounterMoves(l, m, 0, 0)
    else
      && error == None && h == Handle(Some(|l.reservations|), pending) && m.assets == l.assets
      && |m.reservations| == |l.reservations| + 1
      && (forall j :: 0 <= j < |l.reservations| ==> m.reservations[j] == l.reservations[j])
      && m.reservations[|l.reservations|] == Reservation(pending, 0, Reserved, now + 86_400_000)
      && CounterMoves(l, m, 0, pending)
  }

  lemma ReserveDoes(l: Ledger, pending: int, max: Option<int>, now: int)
    ensures var (m, error, h) := ReserveTx(l, pending, max, now); Reserves(l, m, error, h, pending, max, now)
  {
  }

  /** Finalizing so many bytes is accepted if and only if the handle is the empty one and so are they, or
      the handle's row has its bytes, they are among them, and it is open or has been closed with just them. */
  predicate Finalizable(l: Ledger, h: Handle, bytes: int) {
    || (h == Handle(None, 0) && bytes == 0)
    || (NamesRow(l, h) && 0 <= bytes <= h.bytes
        && var r := l.reservations[h.id.value];
        && r.bytes == h.bytes
        && (r.status == Reserved || (r.status == Finalized && r.finalizedBytes == bytes)
          || (r.status == Released && bytes == 0)))
  }

  /** An open row is closed with the bytes, which become used, and its own are no longer reserved. */
  predicate Finalizes(l: Ledger, m: Ledger, error: Option<Error>, h: Handle, bytes: int) {
    && (error == None <==> Finalizable(l, h, bytes))
    && (error != None ==> m == l)
    && (error == None ==> m.assets == l.assets)
    && (error == None && NamesRow(l, h) ==>
          var r := l.reservations[h.id.value];
          if r.status == Reserved then
            && RowBecomes(l, m, h.id.value,
              Reservation(r.bytes, bytes, if bytes == 0 then Released else Finalized, r.expiresAt))
            && CounterMoves(l, m, bytes, -r.bytes)
          else m.reservations == l.reservations && CounterMoves(l, m, 0, 0))
    && (error == None && !NamesRow(l, h) ==> m == l)
    && (error != None && !(h == Handle(None, 0) && bytes == 0) ==>
          error.value == if bytes < 0 || bytes > h.bytes then Validation
                         else if h.id.Some? && !NamesRow(l, h) then NotFound
                         else ReservationInvalid)
  }

  lemma FinalizeDoes(l: Ledger, h: Handle, bytes: int)
    ensures var (m, error) := FinalizeTx(l, h, bytes); Finalizes(l, m, error, h, bytes)
  {
  }

  /** An open row is released and its bytes are no longer reserved; of any other row, or none, nothing
      changes but that the counter comes to be. */
  predicate Releases(l: Ledger, m: Ledger, error: Option<Error>, h: Handle) {
    && m.assets == l.assets
    && (if h.id == None then error == (if h.bytes == 0 then None else Some(ReservationInvalid)) && m == l
        else if NamesRow(l, h) && l.reservations[h.id.value].status == Reserved then
          var r := l.reservations[h.id.value];
          && error == None && CounterMoves(l, m, 0, -r.bytes)
          && RowBecomes(l, m, h.id.value, Reservation(r.bytes, r.finalizedBytes, Released, r.expiresAt))
        else error == None && m.reservations == l.reservations && CounterMoves(l, m, 0, 0))
  }

  lemma ReleaseDoes(l: Ledger, h: Handle)
    ensures var (m, error) := ReleaseTx(l, h); Releases(l, m, error, h)
  {
  }

  /** The rows of the assets have come behind the others, live, in order and with their sizes. */
  predicate AssetsCome(l: Ledger, m: Ledger, sizes: seq<int>) {
    && |m.assets| == |l.assets| + |sizes|
    && (forall i :: 0 <= i < |l.assets| ==> m.assets[i] == l.assets[i])
    && (forall i :: 0 <= i < |sizes| ==> m.assets[|l.assets| + i] == Asset(sizes[i], None, false))
  }

  /** A commit is accepted exactly when its bytes can be finalized; then the assets are there and the
      open reservation is closed with the sum of their sizes; else nothing is. */
  predicate Commits(l: Ledger, m: Ledger, error: Option<Error>, h: Handle, sizes: seq<int>) {
    && (error == None <==> Finalizable(l, h, Total(sizes)))
    && (error != None ==> m == l)
    && (error == None ==> AssetsCome(l, m, sizes))
    && (error == None && NamesRow(l, h) && l.reservations[h.id.value].status == Reserved ==>
          var r, bytes := l.reservations[h.id.value], Total(sizes);
          && RowBecomes(l, m, h.id.value,
            Reservation(r.bytes, bytes, if bytes == 0 then Released else Finalized, r.expiresAt))
          && CounterMoves(l.(assets := m.assets), m, bytes, -r.bytes))
    && (error == None && !(NamesRow(l, h) && l.reservations[h.id.value].status == Reserved) ==>
          && m.reservations == l.reservations
          && (if NamesRow(l, h) then CounterMoves(l.(assets := m.assets), m, 0, 0) else m.counter == l.counter))
  }

  lemma {:induction false} NewAssetsAre(sizes: seq<int>)
    ensures |NewAssets(sizes)| == |sizes|
    ensures forall i :: 0 <= i < |sizes| ==> NewAssets(sizes)[i] == Asset(sizes[i], None, false)
  {
    if sizes != [] {
      NewAssetsAre(sizes[1..]);
      forall i | 0 < i < |sizes| ensures NewAssets(sizes)[i] == Asset(sizes[i], None, false) {
        assert sizes[i] == sizes[1..][i - 1];
      }
    }
  }

  lemma CommitDoes(l: Ledger, h: Handle, sizes: seq<int>)
    ensures var (m, error) := CommitTx(l, h, sizes); Commits(l, m, error, h, sizes)
  {
    NewAssetsAre(sizes);
    FinalizeDoes(l.(assets := l.assets + NewAssets(sizes)), h, Total(sizes));
  }

  /** Unless the counter is negative, every open reservation that has expired is released and no other row
      changes; the counter is then what the rows say. */
  predicate Reconciles(l: Ledger, m: Ledger, error: Option<Error>, now: int) {
    if l.counter.Some? && (l.counter.value.used < 0 || l.counter.value.reserved < 0)
    then error == Some(CounterInvalid) && m == l
    else
      && error == None && m.assets == l.assets && |m.reservations| == |l.reservations|
      && (forall i :: 0 <= i < |l.reservations| ==>
            var r := l.reservations[i];
            m.reservations[i] == if r.status == Reserved && r.expiresAt <= now
                                 then Reservation(r.bytes, r.finalizedBytes, Released, r.expiresAt) else r)
      && m.counter == Some(Counter(Used(m.assets), Open(m.reservations)))
  }

  lemma {:induction false} ExpireIs(rs: seq<Reservation>, now: int)
    ensures |Expire(rs, now)| == |rs|
    ensures forall i :: 0 <= i < |rs| ==>
      Expire(rs, now)[i] == if rs[i].status == Reserved && rs[i].expiresAt <= now then rs[i].(status := Released)
        else rs[i]
  {
    if rs != [] {
      ExpireIs(rs[1..], now);
    }
  }

  lemma ReconcileDoes(l: Ledger, now: int)
    ensures var (m, error) := ReconcileTx(l, now); Reconciles(l, m, error, now)
  {
    ExpireIs(l.reservations, now);
  }

  /** The bytes are taken off what is used, if there are as many; the rows stay. */
  predicate Decrements(l: Ledger, m: Ledger, error: Option<Error>, bytes: int) {
    var c := if l.counter.Some? then l.counter.value else Counter(Used(l.assets), 0);
    && m.assets == l.assets && m.reservations == l.reservations
    && (error == None <==> bytes == 0 || (0 < bytes <= c.used && c.reserved >= 0))
    && (if error == None && bytes > 0 then CounterMoves(l, m, -bytes, 0) else m == l)
    && (error.Some? ==> error.value == if bytes < 0 then Validation else CounterInvalid)
  }

  lemma DecrementDoes(l: Ledger, bytes: int)
    ensures var (m, error) := DecrementTx(l, bytes); Decrements(l, m, error, bytes)
  {
  }

  /** A soft delete dates the row of an asset that is there and not deleted, and takes nothing off the counter. */
  predicate SoftDeletes(l: Ledger, m: Ledger, error: Option<Error>, id: nat, at: int) {
    if id < |l.assets| && l.assets[id].deletedAt == None then
      && error == None && m.reservations == l.reservations && m.counter == l.counter && |m.assets| == |l.assets|
      && m.assets[id] == Asset(l.assets[id].size, Some(at), l.assets[id].purged)
      && (forall j :: 0 <= j < |l.assets| && j != id ==> m.assets[j] == l.assets[j])
    else error == Some(NotFound) && m == l
  }

  lemma SoftDeleteDoes(l: Ledger, id: nat, at: int)
    ensures var (m, error) := SoftDeleteTx(l, id, at); SoftDeletes(l, m, error, id, at)
  {
  }

  /** The row of a deleted asset that is not purged is marked, and its bytes are no longer used. */
  predicate Purges(l: Ledger, m: Ledger, error: Option<Error>, id: nat) {
    if id < |l.assets| && l.assets[id].deletedAt.Some? && !l.assets[id].purged then
      && error == None && m.reservations == l.reservations && |m.assets| == |l.assets|
      && m.assets[id] == Asset(l.assets[id].size, l.assets[id].deletedAt, true)
      && (forall j :: 0 <= j < |l.assets| && j != id ==> m.assets[j] == l.assets[j])
      && CounterMoves(l, m, -l.assets[id].size, 0)
    else error == Some(NotFound) && m == l
  }

  lemma PurgeDoes(l: Ledger, id: nat)
    ensures var (m, error) := PurgeTx(l, id); Purges(l, m, error, id)
  {
  }
}
