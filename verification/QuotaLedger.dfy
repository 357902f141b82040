/** The storage quota ledger of one tenant. `Ledger` holds the rows that the transactions
    read and write; row ids are row numbers, since ids are fresh and never reused. Each
    transaction commits its new ledger or, on an error, leaves the old one. */
module QuotaLedger {
  import opened Wrappers

  datatype Error = Validation | QuotaExceeded | ReservationInvalid | CounterInvalid | NotFound

  datatype Status = Reserved | Finalized | Released

  datatype Reservation = Reservation(bytes: int, finalizedBytes: int, status: Status, expiresAt: int)

  datatype Asset = Asset(size: int, deletedAt: Option<int>, purged: bool)

  datatype Counter = Counter(used: int, reserved: int)

  datatype Ledger = Ledger(assets: seq<Asset>, reservations: seq<Reservation>, counter: Option<Counter>)

  /** What `ReserveStorageQuota` gives the caller; no id stands for the empty reservation. */
  datatype Handle = Handle(id: Option<nat>, bytes: int)

  const RESERVATION_TTL := 24 * 60 * 60 * 1000

  // ---------------------------------------------------------------------------------------
  // The sums the counter caches.

  /** Bytes of all assets whose objects have not been purged, deleted or not. */
  function Used(assets: seq<Asset>): int {
    if assets == [] then 0 else (if assets[0].purged then 0 else assets[0].size) + Used(assets[1..])
  }

  /** Bytes of the reservations that are still open. */
  function Open(rs: seq<Reservation>): int {
    if rs == [] then 0 else (if rs[0].status == Reserved then rs[0].bytes else 0) + Open(rs[1..])
  }

  function Total(sizes: seq<int>): int {
    if sizes == [] then 0 else sizes[0] + Total(sizes[1..])
  }

  function NewAssets(sizes: seq<int>): seq<Asset> {
    if sizes == [] then [] else [Asset(sizes[0], None, false)] + NewAssets(sizes[1..])
  }

  lemma {:induction false} UsedAppend(assets: seq<Asset>, more: seq<Asset>)
    ensures Used(assets + more) == Used(assets) + Used(more)
  {
    if assets == [] {
      assert assets + more == more;
    } else {
      assert (assets + more)[1..] == assets[1..] + more;
      UsedAppend(assets[1..], more);
    }
  }

  lemma {:induction false} UsedNew(sizes: seq<int>)
    ensures Used(NewAssets(sizes)) == Total(sizes)
    ensures forall a :: a in NewAssets(sizes) ==> a.size in sizes && !a.purged && a.deletedAt == None
  {
    if sizes != [] {
      UsedNew(sizes[1..]);
      assert NewAssets(sizes)[1..] == NewAssets(sizes[1..]);
    }
  }

  lemma {:induction false} UsedUpdate(assets: seq<Asset>, i: nat, a: Asset)
    requires i < |assets|
    ensures Used(assets[i := a])
         == Used(assets) - (if assets[i].purged then 0 else assets[i].size) + (if a.purged then 0 else a.size)
  {
    if i > 0 {
      assert assets[i := a][1..] == assets[1..][i - 1 := a];
      UsedUpdate(assets[1..], i - 1, a);
    }
  }

  lemma {:induction false} OpenAppend(rs: seq<Reservation>, r: Reservation)
    ensures Open(rs + [r]) == Open(rs) + if r.status == Reserved then r.bytes else 0
  {
    if rs != [] {
      assert (rs + [r])[1..] == rs[1..] + [r];
      OpenAppend(rs[1..], r);
    }
  }

  lemma {:induction false} OpenUpdate(rs: seq<Reservation>, i: nat, r: Reservation)
    requires i < |rs|
    ensures Open(rs[i := r])
         == Open(rs) - (if rs[i].status == Reserved then rs[i].bytes else 0)
           + (if r.status == Reserved then r.bytes else 0)
  {
    if i > 0 {
      assert rs[i := r][1..] == rs[1..][i - 1 := r];
      OpenUpdate(rs[1..], i - 1, r);
    }
  }

  /** The sum covers every single item, so a guarded subtraction of one cannot fail. */
  lemma {:induction false} OpenCovers(rs: seq<Reservation>, i: nat)
    requires i < |rs| && rs[i].status == Reserved
    requires forall r :: r in rs ==> r.bytes >= 0
    ensures Open(rs) >= rs[i].bytes
  {
    OpenNonNegative(rs[1..]);
    if i > 0 {
      OpenCovers(rs[1..], i - 1);
    }
  }

  lemma {:induction false} OpenNonNegative(rs: seq<Reservation>)
    requires forall r :: r in rs ==> r.bytes >= 0
    ensures Open(rs) >= 0
  {
    if rs != [] {
      OpenNonNegative(rs[1..]);
    }
  }

  lemma {:induction false} UsedNonNegative(assets: seq<Asset>)
    requires forall a :: a in assets ==> a.size >= 0
    ensures Used(assets) >= 0
  {
    if assets != [] {
      UsedNonNegative(assets[1..]);
    }
  }

  lemma {:induction false} UsedCovers(assets: seq<Asset>, i: nat)
    requires i < |assets| && !assets[i].purged
    requires forall a :: a in assets ==> a.size >= 0
    ensures Used(assets) >= assets[i].size
  {
    UsedNonNegative(assets[1..]);
    if i > 0 {
      UsedCovers(assets[1..], i - 1);
    }
  }

  // ---------------------------------------------------------------------------------------
  // The quota test on machine integers.

  newtype int64 = x: int | -0x8000_0000_0000_0000 <= x < 0x8000_0000_0000_0000

  /** The subtractive quota test of a reservation. */
  predicate QuotaGuard(used: int, reserved: int, pending: int, max: int) {
    used > max || reserved > max - used || pending > max - used - reserved
  }

  /** The test evaluated left to right on int64: no subtraction in it overflows, it is the test on
      unbounded integers, and it answers the ideal question about their sum. */
  predicate ExceedsQuota(used: int64, reserved: int64, pending: int64, max: int64)
    requires used >= 0 && reserved >= 0 && pending >= 0 && max >= 0
    ensures ExceedsQuota(used, reserved, pending, max) <==>
      QuotaGuard(used as int, reserved as int, pending as int, max as int)
    ensures ExceedsQuota(used, reserved, pending, max) <==> used as int + reserved as int + pending as int > max as int
  {
    used > max || reserved > max - used || pending > max - used - reserved
  }

  // ---------------------------------------------------------------------------------------
  // The transactions.

  /** The counter row is created on first use, from the asset rows the transaction sees. */
  function Ensured(l: Ledger): Ledger {
    if l.counter.Some? then l else l.(counter := Some(Counter(Used(l.assets), 0)))
  }

  /** A counter that the service refuses to work with. */
  predicate Broken(c: Counter) {
    c.used < 0 || c.reserved < 0
  }

  function Exceeds(c: Counter, pending: int, max: Option<int>): bool {
    max.Some? && c.used + c.reserved + pending > max.value
  }

  function ReserveTx(l: Ledger, pending: int, max: Option<int>, now: int): (Ledger, Option<Error>, Handle) {
    if pending < 0 then (l, Some(Validation), Handle(None, 0))
    else if pending == 0 then (l, None, Handle(None, 0))
    else
      var e := Ensured(l);
      var c := e.counter.value;
      if Exceeds(c, pending, max) then (e, Some(QuotaExceeded), Handle(None, 0))
      else
        (e.(reservations := e.reservations + [Reservation(pending, 0, Reserved, now + RESERVATION_TTL)],
            counter := Some(c.(reserved := c.reserved + pending))),
         None, Handle(Some(|l.reservations|), pending))
  }

  /** Closes an open reservation, of whose bytes `finalized` became used. */
  function Closed(l: Ledger, id: nat, finalized: int): Ledger
    requires l.counter.Some? && id < |l.reservations|
  {
    var r, c := l.reservations[id], l.counter.value;
    l.(reservations :=
      l.reservations[id := r.(status := if finalized == 0 then Released else Finalized, finalizedBytes := finalized)],
       counter := Some(Counter(c.used + finalized, c.reserved - r.bytes)))
  }

  function FinalizeTx(l: Ledger, h: Handle, finalized: int): (Ledger, Option<Error>) {
    if h.id == None && h.bytes == 0 && finalized == 0 then (l, None)
    else if finalized < 0 || finalized > h.bytes then (l, Some(Validation))
    else if h.id == None then (l, Some(ReservationInvalid))
    else if h.id.value >= |l.reservations| then (l, Some(NotFound))
    else
      var r := l.reservations[h.id.value];
      if r.bytes != h.bytes then (l, Some(ReservationInvalid))
      else
        match r.status
        case Finalized => if r.finalizedBytes == finalized then (Ensured(l), None) else (l, Some(ReservationInvalid))
        case Released => if finalized == 0 then (Ensured(l), None) else (l, Some(ReservationInvalid))
        case Reserved => (Closed(Ensured(l), h.id.value, finalized), None)
  }

  function ReleaseTx(l: Ledger, h: Handle): (Ledger, Option<Error>) {
    if h.id == None && h.bytes == 0 then (l, None)
    else if h.id == None then (l, Some(ReservationInvalid))
    else if h.id.value >= |l.reservations| || l.reservations[h.id.value].status != Reserved then (Ensured(l), None)
    else
      var e, r := Ensured(l), l.reservations[h.id.value];
      var c := e.counter.value;
      (e.(reservations := e.reservations[h.id.value := r.(status := Released)],
          counter := Some(c.(reserved := c.reserved - r.bytes))), None)
  }

  /** Writes the asset rows and finalizes their bytes in one transaction. */
  function CommitTx(l: Ledger, h: Handle, sizes: seq<int>): (Ledger, Option<Error>) {
    var (done, error) := FinalizeTx(l.(assets := l.assets + NewAssets(sizes)), h, Total(sizes));
    if error == None then (done, None) else (l, error)
  }

  function Expire(rs: seq<Reservation>, now: int): seq<Reservation> {
    if rs == [] then []
    else
      [if rs[0].status == Reserved && rs[0].expiresAt <= now then rs[0].(status := Released) else rs[0]]
      + Expire(rs[1..], now)
  }

  /** Whatever the counter says, as long as it is not broken, it is replaced by the two sums. */
  function ReconcileTx(l: Ledger, now: int): (Ledger, Option<Error>) {
    if l.counter.Some? && Broken(l.counter.value) then (l, Some(CounterInvalid))
    else
      var rs := Expire(l.reservations, now);
      (Ledger(l.assets, rs, Some(Counter(Used(l.assets), Open(rs)))), None)
  }

  /** Takes purged bytes off the counter, which is created first if it is missing. */
  function DecrementTx(l: Ledger, bytes: int): (Ledger, Option<Error>) {
    if bytes < 0 then (l, Some(Validation))
    else if bytes == 0 then (l, None)
    else
      var c := Ensured(l).counter.value;
      if Broken(c) || bytes > c.used then (l, Some(CounterInvalid))
      else (l.(counter := Some(c.(used := c.used - bytes))), None)
  }

  function SoftDeleteTx(l: Ledger, id: nat, at: int): (Ledger, Option<Error>) {
    if id >= |l.assets| || l.assets[id].deletedAt.Some? then (l, Some(NotFound))
    else (l.(assets := l.assets[id := l.assets[id].(deletedAt := Some(at))]), None)
  }

  function PurgeTx(l: Ledger, id: nat): (Ledger, Option<Error>) {
    if id >= |l.assets| || l.assets[id].deletedAt == None || l.assets[id].purged then (l, Some(NotFound))
    else
      var c := Ensured(l).counter.value;
      (Ledger(l.assets[id := l.assets[id].(purged := true)], l.reservations,
        Some(c.(used := c.used - l.assets[id].size))), None)
  }

  // ---------------------------------------------------------------------------------------
  // Agreement.

  predicate RowOk(r: Reservation) {
    r.bytes >= 0 && 0 <= r.finalizedBytes <= r.bytes && (r.status == Reserved ==> r.finalizedBytes == 0)
  }

  ghost predicate RowsOk(l: Ledger) {
    && (forall a :: a in l.assets ==> a.size >= 0)
    && (forall i :: 0 <= i < |l.reservations| ==> RowOk(l.reservations[i]))
  }

  /** The counter, once it exists, is exactly the two sums; before that nothing is reserved. */
  ghost predicate Agrees(l: Ledger) {
    && RowsOk(l)
    && (l.counter.Some? ==> l.counter.value == Counter(Used(l.assets), Open(l.reservations)))
    && (l.counter == None ==> forall r :: r in l.reservations ==> r.status != Reserved)
  }

  lemma {:induction false} NothingOpen(rs: seq<Reservation>)
    requires forall r :: r in rs ==> r.status != Reserved
    ensures Open(rs) == 0
  {
    if rs != [] {
      NothingOpen(rs[1..]);
    }
  }

  lemma EnsuredAgrees(l: Ledger)
    requires Agrees(l)
    ensures Agrees(Ensured(l))
  {
    if l.counter == None {
      NothingOpen(l.reservations);
    }
  }

  lemma ReserveAgrees(l: Ledger, pending: int, max: Option<int>, now: int)
    requires Agrees(l)
    ensures Agrees(ReserveTx(l, pending, max, now).0)
  {
    EnsuredAgrees(l);
    OpenAppend(l.reservations, Reservation(pending, 0, Reserved, now + RESERVATION_TTL));
  }

  lemma ClosedSums(l: Ledger, id: nat, finalized: int)
    requires Agrees(l) && l.counter.Some? && id < |l.reservations| && l.reservations[id].status == Reserved
    requires 0 <= finalized <= l.reservations[id].bytes
    ensures var t := Closed(l, id, finalized);
            RowsOk(t) && t.counter.value == Counter(Used(l.assets) + finalized, Open(t.reservations))
  {
    var t := Closed(l, id, finalized);
    OpenUpdate(l.reservations, id, t.reservations[id]);
  }

  /** A finalize outside an upload commit keeps agreement exactly when it does not turn
      reserved bytes into used ones. */
  lemma FinalizeAloneAgrees(l: Ledger, h: Handle, finalized: int)
    requires Agrees(l)
    ensures Agrees(FinalizeTx(l, h, finalized).0) <==>
            !(h.id.Some? && h.id.value < |l.reservations| && l.reservations[h.id.value].status == Reserved
              && l.reservations[h.id.value].bytes == h.bytes && 0 < finalized <= h.bytes)
  {
    EnsuredAgrees(l);
    if h.id.Some? && h.id.value < |l.reservations| && l.reservations[h.id.value].status == Reserved
       && l.reservations[h.id.value].bytes == h.bytes && 0 <= finalized <= h.bytes {
      ClosedSums(Ensured(l), h.id.value, finalized);
    }
  }

  lemma ReleaseAgrees(l: Ledger, h: Handle)
    requires Agrees(l)
    ensures Agrees(ReleaseTx(l, h).0)
  {
    EnsuredAgrees(l);
    if h.id.Some? && h.id.value < |l.reservations| && l.reservations[h.id.value].status == Reserved {
      ClosedSums(Ensured(l), h.id.value, 0);
      assert ReleaseTx(l, h).0 == Closed(Ensured(l), h.id.value, 0);
    }
  }

  /** The reservation was already finalized, for as many bytes as are now committed again. */
  predicate Recommits(l: Ledger, h: Handle, sizes: seq<int>) {
    && h.id.Some? && h.id.value < |l.reservations|
    && l.reservations[h.id.value].bytes == h.bytes
    && l.reservations[h.id.value].status == Finalized
    && l.reservations[h.id.value].finalizedBytes == Total(sizes)
    && l.counter.Some?
  }

  lemma {:induction false} TotalNonNegative(sizes: seq<int>)
    requires forall n :: n in sizes ==> n >= 0
    ensures Total(sizes) >= 0
  {
    if sizes != [] {
      assert sizes[0] in sizes && forall n :: n in sizes[1..] ==> n in sizes;
      TotalNonNegative(sizes[1..]);
    }
  }

  /** An upload commit keeps agreement exactly when it is not a second commit of bytes under a
      reservation that is finalized already. In particular the lazily created counter never
      counts the new rows twice. */
  lemma {:induction false} CommitAgrees(l: Ledger, h: Handle, sizes: seq<int>)
    requires Agrees(l) && forall n :: n in sizes ==> n >= 0
    ensures Agrees(CommitTx(l, h, sizes).0) <==>
      !(Recommits(l, h, sizes) && Total(sizes) > 0 && h.bytes >= Total(sizes))
  {
    var m := l.(assets := l.assets + NewAssets(sizes));
    UsedAppend(l.assets, NewAssets(sizes));
    UsedNew(sizes);
    TotalNonNegative(sizes);
    EnsuredAgrees(l);
    if l.counter == None {
      NothingOpen(l.reservations);
    }
    if h.id.Some? && h.id.value < |l.reservations| && l.reservations[h.id.value].status == Reserved
       && l.reservations[h.id.value].bytes == h.bytes && 0 <= Total(sizes) <= h.bytes {
      ClosedSums(l, h.id.value, Total(sizes));
    }
  }

  lemma {:induction false} ExpireRows(rs: seq<Reservation>, now: int)
    requires forall i :: 0 <= i < |rs| ==> RowOk(rs[i])
    ensures |Expire(rs, now)| == |rs|
    ensures forall i :: 0 <= i < |rs| ==> RowOk(Expire(rs, now)[i])
    ensures forall r :: r in Expire(rs, now) && r.status == Reserved ==> r in rs && r.expiresAt > now
    ensures forall i :: 0 <= i < |rs| && (rs[i].status != Reserved || rs[i].expiresAt > now) ==>
      Expire(rs, now)[i] == rs[i]
    ensures Open(Expire(rs, now)) <= Open(rs)
  {
    if rs != [] {
      ExpireRows(rs[1..], now);
    }
  }

  /** Reconciliation brings any counter into agreement that is not broken, whatever it said
      before; an agreeing one it changes only by the reservations it expires. */
  lemma ReconcileAgrees(l: Ledger, now: int)
    requires RowsOk(l)
    ensures ReconcileTx(l, now).1 == None <==> !(l.counter.Some? && Broken(l.counter.value))
    ensures if ReconcileTx(l, now).1 == None then Agrees(ReconcileTx(l, now).0) else ReconcileTx(l, now).0 == l
    ensures Agrees(l) ==> ReconcileTx(l, now).1 == None
    ensures Agrees(l) && l.counter.Some? ==>
              && ReconcileTx(l, now).0.counter.value.used == l.counter.value.used
              && ReconcileTx(l, now).0.counter.value.reserved <= l.counter.value.reserved
  {
    ExpireRows(l.reservations, now);
    UsedNonNegative(l.assets);
    OpenNonNegative(l.reservations);
  }

  lemma SoftDeleteAgrees(l: Ledger, id: nat, at: int)
    requires Agrees(l)
    ensures Agrees(SoftDeleteTx(l, id, at).0)
  {
    if id < |l.assets| {
      UsedUpdate(l.assets, id, l.assets[id].(deletedAt := Some(at)));
    }
  }

  lemma PurgeAgrees(l: Ledger, id: nat)
    requires Agrees(l)
    ensures Agrees(PurgeTx(l, id).0)
  {
    EnsuredAgrees(l);
    if id < |l.assets| {
      UsedUpdate(l.assets, id, l.assets[id].(purged := true));
    }
  }

  // ---------------------------------------------------------------------------------------
  // Runs.

  datatype Step =
    | Reserve(pending: int, now: int)
    | Commit(h: Handle, sizes: seq<int>)
    | Abandon(h: Handle)
    | Release(h: Handle)
    | Reconcile(now: int)
    | SoftDelete(id: nat, at: int)
    | Purge(id: nat)
    | ReadUsage

  /** `Abandon` is the finalize with zero bytes of a task that is no longer running. */
  function Apply(l: Ledger, max: Option<int>, step: Step): Ledger {
    match step
    case Reserve(pending, now) => ReserveTx(l, pending, max, now).0
    case Commit(h, sizes) => CommitTx(l, h, sizes).0
    case Abandon(h) => FinalizeTx(l, h, 0).0
    case Release(h) => ReleaseTx(l, h).0
    case Reconcile(now) => ReconcileTx(l, now).0
    case SoftDelete(id, at) => SoftDeleteTx(l, id, at).0
    case Purge(id) => PurgeTx(l, id).0
    case ReadUsage => Ensured(l)
  }

  /** Uploads measure sizes, so they are not negative, and commit at most once. */
  predicate Proper(l: Ledger, step: Step) {
    step.Commit? ==>
      && (forall n :: n in step.sizes ==> n >= 0)
      && (step.h.id.Some? && step.h.id.value < |l.reservations| ==> l.reservations[step.h.id.value].status != Finalized)
  }

  function Run(l: Ledger, max: Option<int>, steps: seq<Step>): Ledger
    decreases steps
  {
    if steps == [] then l else Run(Apply(l, max, steps[0]), max, steps[1..])
  }

  predicate ProperRun(l: Ledger, max: Option<int>, steps: seq<Step>)
    decreases steps
  {
    steps == [] || (Proper(l, steps[0]) && ProperRun(Apply(l, max, steps[0]), max, steps[1..]))
  }

  /** A run takes its steps one after the other. */
  lemma {:induction false} RunTakesSteps(l: Ledger, max: Option<int>, steps: seq<Step>, step: Step)
    ensures Run(l, max, []) == l && Run(l, max, steps + [step]) == Apply(Run(l, max, steps), max, step)
    decreases steps
  {
    if steps == [] {
      assert [] + [step] == [step] && [step][1..] == [];
    } else {
      assert (steps + [step])[1..] == steps[1..] + [step];
      RunTakesSteps(Apply(l, max, steps[0]), max, steps[1..], step);
    }
  }

  lemma StepAgrees(l: Ledger, max: Option<int>, step: Step)
    requires Agrees(l) && Proper(l, step)
    ensures Agrees(Apply(l, max, step))
  {
    match step {
      case Reserve(pending, now) => ReserveAgrees(l, pending, max, now);
      case Commit(h, sizes) => CommitAgrees(l, h, sizes);
      case Abandon(h) => FinalizeAloneAgrees(l, h, 0);
      case Release(h) => ReleaseAgrees(l, h);
      case Reconcile(now) => ReconcileAgrees(l, now);
      case SoftDelete(id, at) => SoftDeleteAgrees(l, id, at);
      case Purge(id) => PurgeAgrees(l, id);
      case ReadUsage => EnsuredAgrees(l);
    }
  }

  /** Over every run the counter is the two sums, whenever it exists. */
  lemma {:induction false} LedgerAgreesForever(l: Ledger, max: Option<int>, steps: seq<Step>)
    requires Agrees(l) && ProperRun(l, max, steps)
    ensures Agrees(Run(l, max, steps))
    decreases steps
  {
    if steps != [] {
      StepAgrees(l, max, steps[0]);
      LedgerAgreesForever(Apply(l, max, steps[0]), max, steps[1..]);
    }
  }

  /** Stored and reserved bytes, whether or not the counter exists yet, are within the maximum. */
  predicate WithinCap(l: Ledger, max: int) {
    Used(l.assets) + Open(l.reservations) <= max
  }

  lemma ReserveKeepsCap(l: Ledger, pending: int, max: int, now: int)
    requires Agrees(l) && WithinCap(l, max)
    ensures WithinCap(ReserveTx(l, pending, Some(max), now).0, max)
  {
    if l.counter == None {
      NothingOpen(l.reservations);
    }
    OpenAppend(l.reservations, Reservation(pending, 0, Reserved, now + RESERVATION_TTL));
  }

  /** Finalizing moves at most what was reserved into what is used. */
  lemma FinalizeKeepsCap(l: Ledger, m: Ledger, h: Handle, finalized: int)
    requires Agrees(l) && m == l.(assets := m.assets) && Used(m.assets) == Used(l.assets) + finalized
    ensures FinalizeTx(m, h, finalized).1 == None && finalized > 0 && !(h.id.Some? && h.id.value < |l.reservations|
              && l.reservations[h.id.value].status == Finalized) ==>
      Used(m.assets) + Open(FinalizeTx(m, h, finalized).0.reservations) <= Used(l.assets) + Open(l.reservations)
    ensures Open(FinalizeTx(m, h, finalized).0.reservations) <= Open(l.reservations)
  {
    if h.id.Some? && h.id.value < |l.reservations| && l.reservations[h.id.value].status == Reserved {
      OpenUpdate(l.reservations, h.id.value,
        l.reservations[h.id.value].(status := Released, finalizedBytes := finalized));
      OpenUpdate(l.reservations, h.id.value,
        l.reservations[h.id.value].(status := Finalized, finalizedBytes := finalized));
    }
  }

  lemma CommitKeepsCap(l: Ledger, h: Handle, sizes: seq<int>, max: int)
    requires Agrees(l) && Proper(l, Step.Commit(h, sizes)) && WithinCap(l, max)
    ensures WithinCap(CommitTx(l, h, sizes).0, max)
  {
    UsedAppend(l.assets, NewAssets(sizes));
    UsedNew(sizes);
    TotalNonNegative(sizes);
    FinalizeKeepsCap(l, l.(assets := l.assets + NewAssets(sizes)), h, Total(sizes));
  }

  lemma ReleaseKeepsCap(l: Ledger, h: Handle, max: int)
    requires Agrees(l) && WithinCap(l, max)
    ensures WithinCap(ReleaseTx(l, h).0, max) && WithinCap(FinalizeTx(l, h, 0).0, max)
  {
    FinalizeKeepsCap(l, l, h, 0);
    if h.id.Some? && h.id.value < |l.reservations| {
      OpenUpdate(l.reservations, h.id.value, l.reservations[h.id.value].(status := Released));
    }
  }

  lemma AssetStepKeepsCap(l: Ledger, max: int, step: Step)
    requires Agrees(l) && WithinCap(l, max) && (step.SoftDelete? || step.Purge?)
    ensures WithinCap(Apply(l, Some(max), step), max)
  {
    if step.id < |l.assets| {
      assert l.assets[step.id] in l.assets;
      if step.SoftDelete? {
        UsedUpdate(l.assets, step.id, l.assets[step.id].(deletedAt := Some(step.at)));
      } else {
        UsedUpdate(l.assets, step.id, l.assets[step.id].(purged := true));
      }
    }
  }

  lemma StepKeepsCap(l: Ledger, max: int, step: Step)
    requires Agrees(l) && Proper(l, step) && WithinCap(l, max)
    ensures WithinCap(Apply(l, Some(max), step), max)
  {
    match step {
      case Reserve(pending, now) => ReserveKeepsCap(l, pending, max, now);
      case Commit(h, sizes) => CommitKeepsCap(l, h, sizes, max);
      case Abandon(h) => ReleaseKeepsCap(l, h, max);
      case Release(h) => ReleaseKeepsCap(l, h, max);
      case Reconcile(now) => ExpireRows(l.reservations, now);
      case SoftDelete(_, _) => AssetStepKeepsCap(l, max, step);
      case Purge(_) => AssetStepKeepsCap(l, max, step);
      case ReadUsage =>
    }
  }

  /** With a fixed maximum no run takes stored plus reserved bytes above it, from a tenant's first
      state on, nor the counter that caches them. */
  lemma {:induction false} CapHoldsForever(l: Ledger, max: int, steps: seq<Step>)
    requires Agrees(l) && ProperRun(l, Some(max), steps) && WithinCap(l, max)
    ensures var t := Run(l, Some(max), steps);
      WithinCap(t, max) && (t.counter.Some? ==> t.counter.value.used + t.counter.value.reserved <= max)
    decreases steps
  {
    if steps != [] {
      StepKeepsCap(l, max, steps[0]);
      StepAgrees(l, Some(max), steps[0]);
      CapHoldsForever(Apply(l, Some(max), steps[0]), max, steps[1..]);
    }
  }

  // ---------------------------------------------------------------------------------------
  // Each reservation moves the counter once.

  datatype Attempt = Finish(finalized: int) | GiveUp

  function Retry(l: Ledger, h: Handle, attempts: seq<Attempt>): Ledger
    decreases attempts
  {
    if attempts == [] then l
    else
      var next := match attempts[0] case Finish(n) => FinalizeTx(l, h, n).0 case GiveUp => ReleaseTx(l, h).0;
      Retry(next, h, attempts[1..])
  }

  lemma {:induction false} AttemptsFollow(l: Ledger, h: Handle, attempts: seq<Attempt>, n: int)
    ensures Retry(l, h, []) == l
    ensures Retry(l, h, attempts + [Finish(n)]) == FinalizeTx(Retry(l, h, attempts), h, n).0
    ensures Retry(l, h, attempts + [GiveUp]) == ReleaseTx(Retry(l, h, attempts), h).0
    decreases attempts
  {
    forall last: Attempt | true
      ensures [] + [last] == [last] && [last][1..] == []
      ensures attempts != [] ==> (attempts + [last])[1..] == attempts[1..] + [last]
    {
    }
    if attempts != [] {
      var next := match attempts[0] case Finish(n) => FinalizeTx(l, h, n).0 case GiveUp => ReleaseTx(l, h).0;
      AttemptsFollow(next, h, attempts[1..], n);
    }
  }

  /** No attempt on a closed reservation changes anything. */
  lemma {:induction false} AttemptsOnClosed(l: Ledger, h: Handle, attempts: seq<Attempt>)
    requires l.counter.Some? && h.id.Some? && h.id.value < |l.reservations|
    requires l.reservations[h.id.value].status != Reserved
    ensures Retry(l, h, attempts) == l
    decreases attempts
  {
    if attempts != [] {
      AttemptsOnClosed(l, h, attempts[1..]);
    }
  }

  /** However often and in whatever order finalize and release are tried, the counter has
      moved once if the reservation is closed at the end, by exactly what its row says, and
      not at all if it is still open. */
  lemma {:induction false} CounterMovesOnce(l: Ledger, h: Handle, attempts: seq<Attempt>)
    requires l.counter.Some? && h.id.Some? && h.id.value < |l.reservations|
    requires l.reservations[h.id.value].status == Reserved && l.reservations[h.id.value].finalizedBytes == 0
    ensures |Retry(l, h, attempts).reservations| == |l.reservations|
    ensures
      var t := Retry(l, h, attempts);
      var r := t.reservations[h.id.value];
      && t.counter.Some? && t.assets == l.assets
      && (if r.status == Reserved then t == l
          else t.counter.value == Counter(l.counter.value.used + r.finalizedBytes,
                                          l.counter.value.reserved - l.reservations[h.id.value].bytes))
      && (r.status == Released ==> r.finalizedBytes == 0)
    decreases attempts
  {
    if attempts != [] {
      var next := match attempts[0] case Finish(n) => FinalizeTx(l, h, n).0 case GiveUp => ReleaseTx(l, h).0;
      if next == l {
        CounterMovesOnce(l, h, attempts[1..]);
      } else {
        AttemptsOnClosed(next, h, attempts[1..]);
      }
    }
  }

  // ---------------------------------------------------------------------------------------
  // Reservations over whole runs.

  lemma {:induction false} ExpireKeepsClosed(rs: seq<Reservation>, now: int, i: nat)
    requires i < |rs|
    ensures |Expire(rs, now)| == |rs|
    ensures Expire(rs, now)[i] == rs[i]
      || (rs[i].status == Reserved && Expire(rs, now)[i] == rs[i].(status := Released))
  {
    if i == 0 {
      ExpireLength(rs[1..], now);
    } else {
      ExpireKeepsClosed(rs[1..], now, i - 1);
    }
  }

  lemma {:induction false} ExpireLength(rs: seq<Reservation>, now: int)
    ensures |Expire(rs, now)| == |rs|
  {
    if rs != [] {
      ExpireLength(rs[1..], now);
    }
  }

  /** A step leaves a reservation as it is, or closes it while it is open. */
  lemma StepOnReservation(l: Ledger, max: Option<int>, step: Step, i: nat)
    requires i < |l.reservations|
    ensures var t := Apply(l, max, step);
      i < |t.reservations| && (t.reservations[i] == l.reservations[i]
                               || (l.reservations[i].status == Reserved && t.reservations[i].status != Reserved))
  {
    if step.Reconcile? {
      ExpireKeepsClosed(l.reservations, step.now, i);
    }
  }

  /** A closed reservation is never touched again, whatever else happens in between. */
  lemma {:induction false} ClosedStaysClosed(l: Ledger, max: Option<int>, steps: seq<Step>, i: nat)
    requires i < |l.reservations| && l.reservations[i].status != Reserved
    ensures i < |Run(l, max, steps).reservations| && Run(l, max, steps).reservations[i] == l.reservations[i]
    decreases steps
  {
    if steps != [] {
      StepOnReservation(l, max, steps[0], i);
      ClosedStaysClosed(Apply(l, max, steps[0]), max, steps[1..], i);
    }
  }

  predicate IsOpen(l: Ledger, i: nat) {
    i < |l.reservations| && l.reservations[i].status == Reserved
  }

  /** How often the run closes the i-th reservation. */
  function Closings(l: Ledger, max: Option<int>, steps: seq<Step>, i: nat): nat
    decreases steps
  {
    if steps == [] then 0
    else
      var t := Apply(l, max, steps[0]);
      (if IsOpen(l, i) && !IsOpen(t, i) then 1 else 0) + Closings(t, max, steps[1..], i)
  }

  /** Every reservation, made before the run or in it, is closed at most once; one there from the start
      exactly when it is open then and no longer open in the end. */
  lemma {:induction false} ClosedAtMostOnce(l: Ledger, max: Option<int>, steps: seq<Step>, i: nat)
    ensures Closings(l, max, steps, i) <= 1
    ensures i < |l.reservations| && l.reservations[i].status != Reserved ==> Closings(l, max, steps, i) == 0
    ensures i < |l.reservations| ==>
      && i < |Run(l, max, steps).reservations|
      && (Closings(l, max, steps, i) == 1 <==>
            l.reservations[i].status == Reserved && Run(l, max, steps).reservations[i].status != Reserved)
    decreases steps
  {
    if steps != [] {
      if i < |l.reservations| {
        StepOnReservation(l, max, steps[0], i);
        if !IsOpen(Apply(l, max, steps[0]), i) {
          ClosedStaysClosed(Apply(l, max, steps[0]), max, steps[1..], i);
        }
      }
      ClosedAtMostOnce(Apply(l, max, steps[0]), max, steps[1..], i);
    }
  }

  // ---------------------------------------------------------------------------------------
  // Uploads as the owners of their reservations.

  /** An upload keeps the handle of its own reserve until its commit has succeeded. */
  datatype Upload = Holding(h: Handle) | Done

  datatype System = System(ledger: Ledger, uploads: map<nat, Upload>)

  datatype Act =
    | Start(u: nat, pending: int, at: int)
    | Finalize(u: nat, sizes: seq<nat>)
    | Cancel(u: nat)
    | Withdraw(u: nat)
    | Elsewhere(step: Step)

  /** The ledger transaction an act issues: an upload's on its own handle; elsewhere, those that
      need none. */
  function StepOf(s: System, act: Act): Step {
    match act
    case Start(u, pending, at) => if u in s.uploads then ReadUsage else Reserve(pending, at)
    case Finalize(u, sizes) =>
      if u in s.uploads && s.uploads[u].Holding? then Commit(s.uploads[u].h, Sizes(sizes)) else ReadUsage
    case Cancel(u) => if u in s.uploads && s.uploads[u].Holding? then Abandon(s.uploads[u].h) else ReadUsage
    case Withdraw(u) => if u in s.uploads && s.uploads[u].Holding? then Release(s.uploads[u].h) else ReadUsage
    case Elsewhere(step) => if step.Reconcile? || step.SoftDelete? || step.Purge? then step else ReadUsage
  }

  function Sizes(sizes: seq<nat>): (r: seq<int>)
    ensures forall n :: n in r ==> n >= 0
  {
    seq(|sizes|, i requires 0 <= i < |sizes| => sizes[i])
  }

  function Do(s: System, max: Option<int>, act: Act): System {
    var step := StepOf(s, act);
    var ledger := Apply(s.ledger, max, step);
    match act
    case Start(u, pending, at) =>
      var r := ReserveTx(s.ledger, pending, max, at);
      System(ledger, if u !in s.uploads && r.1 == None then s.uploads[u := Holding(r.2)] else s.uploads)
    case Finalize(u, _) =>
      System(ledger,
        if step.Commit? && CommitTx(s.ledger, step.h, step.sizes).1 == None then s.uploads[u := Done] else s.uploads)
    case _ => System(ledger, s.uploads)
  }

  /** What an act is: who starts reserves and then holds the handle; who holds one commits, cancels or
      withdraws under it, and has none after a commit that has succeeded. */
  lemma ActIs(s: System, max: Option<int>, act: Act)
    ensures match act
      case Start(u, pending, at) =>
        u !in s.uploads ==>
          var (ledger, error, h) := ReserveTx(s.ledger, pending, max, at);
          Do(s, max, act) == System(ledger, if error == None then s.uploads[u := Holding(h)] else s.uploads)
      case Finalize(u, sizes) =>
        u in s.uploads && s.uploads[u].Holding? ==>
          var (ledger, error) := CommitTx(s.ledger, s.uploads[u].h, Sizes(sizes));
          Do(s, max, act) == System(ledger, if error == None then s.uploads[u := Done] else s.uploads)
      case Cancel(u) =>
        u in s.uploads && s.uploads[u].Holding? ==>
          Do(s, max, act) == System(FinalizeTx(s.ledger, s.uploads[u].h, 0).0, s.uploads)
      case Withdraw(u) =>
        u in s.uploads && s.uploads[u].Holding? ==>
          Do(s, max, act) == System(ReleaseTx(s.ledger, s.uploads[u].h).0, s.uploads)
      case Elsewhere(step) =>
        step.Reconcile? || step.SoftDelete? || step.Purge? ==>
          Do(s, max, act) == System(Apply(s.ledger, max, step), s.uploads)
  {
  }

  lemma {:induction false} ActsFollow(s: System, max: Option<int>, acts: seq<Act>, act: Act)
    ensures DoAll(s, max, []) == s && DoAll(s, max, acts + [act]) == Do(DoAll(s, max, acts), max, act)
    decreases acts
  {
    if acts == [] {
      assert [] + [act] == [act] && [act][1..] == [];
    } else {
      assert (acts + [act])[1..] == acts[1..] + [act];
      ActsFollow(Do(s, max, acts[0]), max, acts[1..], act);
    }
  }

  predicate Apart(a: Upload, b: Upload) {
    a.Holding? && b.Holding? && a.h.id.Some? ==> a.h.id != b.h.id
  }

  /** Each upload under way has a reservation of its own that is not finalized. */
  ghost predicate OwnHandles(s: System) {
    && (forall u :: u in s.uploads && s.uploads[u].Holding? && s.uploads[u].h.id.Some? ==>
          var id := s.uploads[u].h.id.value;
          id < |s.ledger.reservations| && s.ledger.reservations[id].status != Finalized)
    && (forall u, v :: u in s.uploads && v in s.uploads && u != v ==> Apart(s.uploads[u], s.uploads[v]))
  }

  lemma ActIsProper(s: System, act: Act)
    requires OwnHandles(s)
    ensures Proper(s.ledger, StepOf(s, act))
  {
  }

  /** Only a commit finalizes, and only the reservation it names. */
  lemma OnlyCommitFinalizes(l: Ledger, max: Option<int>, step: Step, i: nat)
    requires i < |l.reservations| && l.reservations[i].status != Finalized
    requires step.Commit? ==> step.h.id != Some(i) || CommitTx(l, step.h, step.sizes).1 != None
    ensures i < |Apply(l, max, step).reservations| && Apply(l, max, step).reservations[i].status != Finalized
  {
    if step.Reconcile? {
      ExpireKeepsClosed(l.reservations, step.now, i);
    }
  }

  lemma ActKeepsHandles(s: System, max: Option<int>, act: Act)
    requires OwnHandles(s)
    ensures OwnHandles(Do(s, max, act))
  {
    var t, step := Do(s, max, act), StepOf(s, act);
    forall u | u in t.uploads && t.uploads[u].Holding? && t.uploads[u].h.id.Some?
      ensures t.uploads[u].h.id.value < |t.ledger.reservations|
              && t.ledger.reservations[t.uploads[u].h.id.value].status != Finalized
    {
      if u in s.uploads {
        OnlyCommitFinalizes(s.ledger, max, step, s.uploads[u].h.id.value);
      }
    }
  }

  function DoAll(s: System, max: Option<int>, acts: seq<Act>): System
    decreases acts
  {
    if acts == [] then s else DoAll(Do(s, max, acts[0]), max, acts[1..])
  }

  /** Whatever uploads and others do, the ledger agrees, and with a maximum stays within it: uploads
      commit at most once because each commits under its own handle. */
  lemma {:induction false} UploadsKeepTheLedger(s: System, max: Option<int>, acts: seq<Act>)
    requires OwnHandles(s) && Agrees(s.ledger) && (max.Some? ==> WithinCap(s.ledger, max.value))
    ensures var t := DoAll(s, max, acts);
      OwnHandles(t) && Agrees(t.ledger) && (max.Some? ==> WithinCap(t.ledger, max.value))
    decreases acts
  {
    if acts != [] {
      var step := StepOf(s, acts[0]);
      ActIsProper(s, acts[0]);
      ActKeepsHandles(s, max, acts[0]);
      StepAgrees(s.ledger, max, step);
      if max.Some? {
        StepKeepsCap(s.ledger, max.value, step);
      }
      UploadsKeepTheLedger(Do(s, max, acts[0]), max, acts[1..]);
    }
  }
}
