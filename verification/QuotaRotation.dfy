/** The maintenance worker's quota reconciliations: each run takes the next batch of tenants
    after its cursor, and starts over when none is left. */
module QuotaRotation {
  import opened Text
  import opened Wrappers

  /** How reconciling one tenant, or waiting for it, may go. */
  datatype Outcome = Reconciled | SettingInvalid | Failed | Cancelled

  datatype Error = Invalid | ContextCancelled

  function Min(a: nat, b: nat): nat {
    if a < b then a else b
  }

  predicate Sorted(ids: seq<string>) {
    && (forall i, j :: 0 <= i < j < |ids| ==> Before(ids[i], ids[j]))
    && (forall i :: 0 <= i < |ids| ==> ids[i] != "" && Trimmed(ids[i]))
  }

  /** How many ids are not after the cursor. */
  function Position(ids: seq<string>, cursor: string): (p: nat)
    ensures p <= |ids|
  {
    if ids == [] || Before(cursor, ids[0]) then 0 else 1 + Position(ids[1..], cursor)
  }

  // ---------------------------------------------------------------------------------------
  // The rotation on positions.

  /** Where the run starts: at the position, or at the front when all has been passed. */
  function Start(p: nat, n: nat): nat {
    if p == n then 0 else p
  }

  function Next(p: nat, n: nat, b: nat): nat {
    Min(Start(p, n) + b, n)
  }

  predicate Attempts(p: nat, n: nat, b: nat, i: nat) {
    Start(p, n) <= i < Next(p, n, b)
  }

  /** The i-th tenant is attempted by one of the next k runs. */
  predicate AttemptedWithin(p: nat, n: nat, b: nat, i: nat, k: nat)
    decreases k
  {
    k > 0 && (Attempts(p, n, b, i) || AttemptedWithin(Next(p, n, b), n, b, i, k - 1))
  }

  lemma {:induction false} MoreRunsReachMore(p: nat, n: nat, b: nat, i: nat, k: nat, m: nat)
    requires AttemptedWithin(p, n, b, i, k) && k <= m
    ensures AttemptedWithin(p, n, b, i, m)
    decreases k
  {
    if !Attempts(p, n, b, i) {
      MoreRunsReachMore(Next(p, n, b), n, b, i, k - 1, m - 1);
    }
  }

  /** How many batches of b it takes to go through n tenants. */
  function Rounds(n: nat, b: nat): nat
    requires b > 0
  {
    if n == 0 then 0 else if n <= b then 1 else 1 + Rounds(n - b, b)
  }

  /** That is n divided by b, rounded up. */
  lemma {:induction false} RoundsIsCeiling(n: nat, b: nat)
    requires n > 0 && b > 0
    ensures b * (Rounds(n, b) - 1) < n <= b * Rounds(n, b)
  {
    if n > b {
      RoundsIsCeiling(n - b, b);
      assert b * Rounds(n, b) == b * (Rounds(n, b) - 1) + b;
    }
  }

  lemma {:induction false} RoundsAreMonotone(m: nat, n: nat, b: nat)
    requires m <= n && b > 0
    ensures Rounds(m, b) <= Rounds(n, b)
  {
    if m > b {
      RoundsAreMonotone(m - b, n - b, b);
    }
  }

  lemma {:induction false} RoundsAddUp(m: nat, n: nat, b: nat)
    requires b > 0
    ensures Rounds(m, b) + Rounds(n, b) <= Rounds(m + n, b) + 1
  {
    if m <= b {
      RoundsAreMonotone(n, m + n, b);
    } else {
      RoundsAddUp(m - b, n, b);
    }
  }

  /** A tenant ahead comes up before the rotation wraps around. */
  lemma {:induction false} AheadIsReached(p: nat, n: nat, b: nat, i: nat)
    requires b > 0 && p <= i < n
    ensures AttemptedWithin(p, n, b, i, Rounds(i + 1 - p, b))
    decreases i - p
  {
    if i >= p + b {
      AheadIsReached(p + b, n, b, i);
    }
  }

  /** A tenant already passed comes up after the rotation has gone to the end. */
  lemma {:induction false} PassedIsReached(p: nat, n: nat, b: nat, i: nat)
    requires b > 0 && i < p <= n
    ensures AttemptedWithin(p, n, b, i, Rounds(n - p, b) + Rounds(i + 1, b))
    decreases n - p
  {
    if p == n {
      AheadIsReached(0, n, b, i);
    } else {
      PassedIsReached(Min(p + b, n), n, b, i);
    }
  }

  /** From any position every tenant is attempted within one run more than the tenants have
      batches. */
  lemma EveryPositionIsReached(p: nat, n: nat, b: nat, i: nat)
    requires b > 0 && p <= n && i < n
    ensures AttemptedWithin(p, n, b, i, Rounds(n, b) + 1)
  {
    if p <= i {
      AheadIsReached(p, n, b, i);
      RoundsAreMonotone(i + 1 - p, n, b);
      MoreRunsReachMore(p, n, b, i, Rounds(i + 1 - p, b), Rounds(n, b) + 1);
    } else {
      PassedIsReached(p, n, b, i);
      RoundsAreMonotone(i + 1, p, b);
      RoundsAddUp(n - p, p, b);
      MoreRunsReachMore(p, n, b, i, Rounds(n - p, b) + Rounds(i + 1, b), Rounds(n, b) + 1);
    }
  }

  /** One run less is not enough: behind a full batch, the first of the tenants waits that long. */
  lemma {:induction false} BoundIsTight(b: nat)
    requires b > 1
    ensures !AttemptedWithin(1, b, b, 0, Rounds(b, b))
  {
  }

  // ---------------------------------------------------------------------------------------
  // The rotation on ids.

  /** The first ids after the cursor, at most `limit` of them. */
  function IdsAfter(ids: seq<string>, cursor: string, limit: nat): seq<string> {
    ids[Position(ids, cursor)..Min(Position(ids, cursor) + limit, |ids|)]
  }

  /** What a run attempts. */
  function Batch(ids: seq<string>, cursor: string, limit: nat): seq<string> {
    if IdsAfter(ids, cursor, limit) == [] && cursor != "" then IdsAfter(ids, "", limit)
    else IdsAfter(ids, cursor, limit)
  }

  /** Where it leaves the cursor. */
  function CursorAfter(ids: seq<string>, cursor: string, limit: nat): string {
    var batch := Batch(ids, cursor, limit);
    if batch != [] then batch[|batch| - 1] else if IdsAfter(ids, cursor, limit) == [] then "" else cursor
  }

  lemma {:induction false} PositionOfId(ids: seq<string>, i: nat)
    requires Sorted(ids) && i < |ids|
    ensures Position(ids, ids[i]) == i + 1
  {
    var c := ids[i];
    if i == 0 {
      BeforeIsIrreflexive(c);
      if |ids| > 1 {
        assert Before(ids[0], ids[1]);
        assert ids[1..][0] == ids[1];
      }
      assert Position(ids[1..], c) == 0;
    } else {
      assert Before(ids[0], c);
      if Before(c, ids[0]) {
        BeforeIsTransitive(c, ids[0], c);
        BeforeIsIrreflexive(c);
      }
      PositionOfId(ids[1..], i - 1);
    }
  }

  /** The runs on ids are the runs on positions. */
  lemma {:induction false} RunsOnPositions(ids: seq<string>, cursor: string, limit: nat)
    requires Sorted(ids) && limit > 0 && ids != []
    ensures var p, n := Position(ids, cursor), |ids|;
      && Batch(ids, cursor, limit) == ids[Start(p, n)..Next(p, n, limit)]
      && Position(ids, CursorAfter(ids, cursor, limit)) == Next(p, n, limit)
  {
    EmptyCursorIsFirst(ids);
    BatchOnPositions(ids, cursor, limit, Position(ids, cursor));
    PositionOfId(ids, Next(Position(ids, cursor), |ids|, limit) - 1);
  }

  lemma {:induction false} EmptyCursorIsFirst(ids: seq<string>)
    requires Sorted(ids) && ids != []
    ensures Position(ids, "") == 0
  {
    assert Before("", ids[0]);
  }

  lemma {:induction false} BatchOnPositions(ids: seq<string>, cursor: string, limit: nat, p: nat)
    requires limit > 0 && ids != [] && Position(ids, "") == 0 && p == Position(ids, cursor)
    ensures var n := |ids|;
      && Batch(ids, cursor, limit) == ids[Start(p, n)..Next(p, n, limit)]
      && CursorAfter(ids, cursor, limit) == ids[Next(p, n, limit) - 1]
  {
    assert |IdsAfter(ids, "", limit)| == Min(limit, |ids|);
    assert |IdsAfter(ids, cursor, limit)| == Min(p + limit, |ids|) - p;
  }

  /** The tenant is attempted by one of the next k runs from the cursor. */
  predicate ReachedWithin(ids: seq<string>, cursor: string, limit: nat, id: string, k: nat)
    decreases k
  {
    k > 0 && (id in Batch(ids, cursor, limit) || ReachedWithin(ids, CursorAfter(ids, cursor, limit), limit, id, k - 1))
  }

  lemma {:induction false} ReachedOnPositions(ids: seq<string>, cursor: string, limit: nat, i: nat, k: nat)
    requires Sorted(ids) && limit > 0 && i < |ids| && AttemptedWithin(Position(ids, cursor), |ids|, limit, i, k)
    ensures ReachedWithin(ids, cursor, limit, ids[i], k)
    decreases k
  {
    RunsOnPositions(ids, cursor, limit);
    var p, n := Position(ids, cursor), |ids|;
    if Attempts(p, n, limit, i) {
      assert ids[Start(p, n)..Next(p, n, limit)][i - Start(p, n)] == ids[i];
    } else {
      ReachedOnPositions(ids, CursorAfter(ids, cursor, limit), limit, i, k - 1);
    }
  }

  /** Fairness: from any cursor, every active tenant is attempted within one run more than the
      tenants have batches. */
  lemma EveryTenantIsReached(ids: seq<string>, cursor: string, limit: nat, id: string)
    requires Sorted(ids) && limit > 0 && id in ids
    ensures ReachedWithin(ids, cursor, limit, id, Rounds(|ids|, limit) + 1)
  {
    var i :| 0 <= i < |ids| && ids[i] == id;
    EveryPositionIsReached(Position(ids, cursor), |ids|, limit, i);
    ReachedOnPositions(ids, cursor, limit, i, Rounds(|ids|, limit) + 1);
  }

  /** The tenants are the first after the cursor, in order, with none left out, and fewer than the limit
      only if there are no more. */
  predicate FirstAfter(ids: seq<string>, cursor: string, limit: nat, found: seq<string>) {
    && |found| <= limit
    && (forall j :: 0 <= j < |found| ==> found[j] in ids && Before(cursor, found[j]))
    && (forall j, k :: 0 <= j < k < |found| ==> Before(found[j], found[k]))
    && (forall id :: id in ids && Before(cursor, id) && id !in found ==>
          |found| == limit && forall j :: 0 <= j < |found| ==> Before(found[j], id))
  }

  lemma IdsAfterAreFirst(ids: seq<string>, cursor: string, limit: nat)
    requires Sorted(ids)
    ensures FirstAfter(ids, cursor, limit, IdsAfter(ids, cursor, limit))
  {
    var p, found := Position(ids, cursor), IdsAfter(ids, cursor, limit);
    forall j | 0 <= j < |found| ensures found[j] in ids && Before(cursor, found[j]) {
      assert found[j] == ids[p + j];
      PositionSplits(ids, cursor, p + j);
    }
    forall i | p <= i < Min(p + limit, |ids|) ensures ids[i] in found {
      assert found[i - p] == ids[i];
    }
    forall id | id in ids && Before(cursor, id) && id !in found
      ensures |found| == limit && forall j :: 0 <= j < |found| ==> Before(found[j], id)
    {
      var i: nat :| i < |ids| && ids[i] == id;
      PositionSplits(ids, cursor, i);
    }
  }

  /** A run's batch is that, or if no tenant is left after the cursor the same from the start; the cursor
      is left at its last tenant. */
  lemma {:induction false} BatchIs(ids: seq<string>, cursor: string, limit: nat)
    requires Sorted(ids) && limit > 0
    ensures var batch := Batch(ids, cursor, limit);
      && (if exists id :: id in ids && Before(cursor, id) then FirstAfter(ids, cursor, limit, batch)
          else FirstAfter(ids, "", limit, batch))
      && (batch == [] <==> ids == [])
      && CursorAfter(ids, cursor, limit) == if ids == [] then "" else batch[|batch| - 1]
  {
    IdsAfterAreFirst(ids, cursor, limit);
    IdsAfterAreFirst(ids, "", limit);
    forall i | 0 <= i < |ids| ensures Before("", ids[i]) {
    }
    if id :| id in ids && Before(cursor, id) {
      assert IdsAfter(ids, cursor, limit) != [];
    }
  }

  // ---------------------------------------------------------------------------------------
  // The runner.

  /** The active tenants after the given one, in order. */
  method ListActiveTenantIdsAfter(ids: seq<string>, after: string, limit: int) returns (r: Option<seq<string>>)
    requires Sorted(ids)
    ensures limit <= 0 ==> r == None
    ensures limit > 0 ==> r == Some(IdsAfter(ids, TrimSpace(after), limit))
    ensures limit > 0 ==> FirstAfter(ids, TrimSpace(after), limit, r.value)
  {
    if limit <= 0 {
      return None;
    }
    var cursor := TrimSpace(after);
    var found: seq<string> := [];
    ghost var p := Position(ids, cursor);
    for i := 0 to |ids|
      invariant found == Between(ids, p, limit, i)
    {
      PositionSplits(ids, cursor, i);
      BetweenNext(ids, p, limit, i);
      if (cursor == "" || Before(cursor, ids[i])) && |found| < limit {
        found := found + [ids[i]];
      }
    }
    BetweenAll(ids, p, limit);
    IdsAfterAreFirst(ids, cursor, limit);
    return Some(found);
  }

  /** The first ids from the position on, at most the limit, among the first `i`. */
  function Between(ids: seq<string>, p: nat, limit: int, i: nat): (r: seq<string>)
    requires limit > 0 && i <= |ids|
    ensures |r| == if i <= p then 0 else Min(limit, i - p)
  {
    if i <= p then [] else ids[p..Min(p + limit, i)]
  }

  lemma BetweenNext(ids: seq<string>, p: nat, limit: int, i: nat)
    requires limit > 0 && i < |ids|
    ensures Between(ids, p, limit, i + 1) == Between(ids, p, limit, i) + if p <= i < p + limit then [ids[i]] else []
  {
  }

  lemma BetweenAll(ids: seq<string>, p: nat, limit: int)
    requires limit > 0 && p <= |ids|
    ensures Between(ids, p, limit, |ids|) == ids[p..Min(p + limit, |ids|)]
  {
  }

  /** The ids from the position on are those after the cursor. */
  lemma {:induction false} PositionSplits(ids: seq<string>, cursor: string, i: nat)
    requires Sorted(ids) && i < |ids|
    ensures Before(cursor, ids[i]) <==> Position(ids, cursor) <= i
  {
    if Before(cursor, ids[0]) {
      if i > 0 {
        BeforeIsTransitive(cursor, ids[0], ids[i]);
      }
    } else if i > 0 {
      PositionSplits(ids[1..], cursor, i - 1);
    }
  }

  /** The context is cancelled when asked before the i-th tenant. */
  predicate CancelledBefore(cancellations: seq<bool>, i: nat) {
    i < |cancellations| && cancellations[i]
  }

  predicate CancelledDuring(outcomes: seq<Outcome>, i: nat) {
    i < |outcomes| && outcomes[i] == Cancelled
  }

  /** No cancellation before or during the first n tenants. */
  predicate GoesOn(cancellations: seq<bool>, outcomes: seq<Outcome>, n: nat) {
    forall i :: 0 <= i < n ==> !CancelledBefore(cancellations, i) && !CancelledDuring(outcomes, i)
  }

  function Drop<T>(s: seq<T>, n: nat): seq<T> {
    if n <= |s| then s[n..] else []
  }

  lemma DropOneMore<T>(s: seq<T>, n: nat)
    ensures Drop(s, 0) == s && Drop(Drop(s, n), 1) == Drop(s, n + 1)
    ensures n < |s| ==> Drop(s, n) != [] && Drop(s, n)[0] == s[n]
    ensures n >= |s| ==> Drop(s, n) == []
  {
  }

  /** What is seen i tenants later is what was to come then. */
  lemma SeenLater(cancellations: seq<bool>, outcomes: seq<Outcome>, i: nat)
    ensures CancelledBefore(Drop(cancellations, i), 0) <==> CancelledBefore(cancellations, i)
    ensures CancelledDuring(Drop(outcomes, i), 0) <==> CancelledDuring(outcomes, i)
    ensures GoesOn(cancellations, outcomes, i + 1) <==>
      GoesOn(cancellations, outcomes, i) && !CancelledBefore(cancellations, i) && !CancelledDuring(outcomes, i)
    ensures Drop(Drop(cancellations, i), 1) == Drop(cancellations, i + 1)
      && Drop(Drop(outcomes, i), 1) == Drop(outcomes, i + 1)
  {
    DropOneMore(cancellations, i);
    DropOneMore(outcomes, i);
  }

  class RetentionMaintenanceRunner {
    const batchLimit: int
    const tenants: seq<string>
    var quotaCursor: string
    /** How the reconciliations to come will go, and what the context will answer when asked
        whether it is cancelled; after these, well and no. */
    var outcomes: seq<Outcome>
    var cancellations: seq<bool>
    /** Whom the runs have attempted, in order. */
    var attempted: seq<string>

    constructor (batchLimit: int, tenants: seq<string>, quotaCursor: string, outcomes: seq<Outcome>,
        cancellations: seq<bool>)
      ensures this.batchLimit == batchLimit && this.tenants == tenants && attempted == []
      ensures this.quotaCursor == quotaCursor && this.outcomes == outcomes && this.cancellations == cancellations
    {
      this.batchLimit, this.tenants, this.quotaCursor, attempted := batchLimit, tenants, quotaCursor, [];
      this.outcomes, this.cancellations := outcomes, cancellations;
    }

    /** Nothing cancels the runs to come. */
    predicate Uncancelled()
      reads this`outcomes, this`cancellations
    {
      Cancelled !in outcomes && true !in cancellations
    }

    method ContextCancelledNow() returns (cancelled: bool)
      modifies this`cancellations
      ensures cancelled == CancelledBefore(old(cancellations), 0) && cancellations == Drop(old(cancellations), 1)
    {
      cancelled := false;
      if cancellations != [] {
        cancelled, cancellations := cancellations[0], cancellations[1..];
      }
    }

    /** Reconciles one tenant; whether that works out or not, the tenant has been attempted. */
    method Reconcile(tenant: string) returns (outcome: Outcome)
      modifies this`outcomes, this`attempted
      ensures attempted == old(attempted) + [tenant] && outcomes == Drop(old(outcomes), 1)
      ensures outcome == Cancelled <==> CancelledDuring(old(outcomes), 0)
    {
      attempted := attempted + [tenant];
      outcome := Reconciled;
      if outcomes != [] {
        outcome, outcomes := outcomes[0], outcomes[1..];
      }
    }

    /** The batch after the cursor, or the first one when none is left. */
    method NextBatch() returns (listed: Option<seq<string>>)
      requires Sorted(tenants) && Trimmed(quotaCursor)
      modifies this`quotaCursor
      ensures listed == if batchLimit <= 0 then None else Some(Batch(tenants, old(quotaCursor), batchLimit))
      ensures quotaCursor == if batchLimit > 0 && IdsAfter(tenants, old(quotaCursor), batchLimit) == [] then ""
        else old(quotaCursor)
    {
      listed := ListActiveTenantIdsAfter(tenants, quotaCursor, batchLimit);
      if listed.Some? && listed.value == [] && quotaCursor != "" {
        quotaCursor := "";
        listed := ListActiveTenantIdsAfter(tenants, "", batchLimit);
      }
    }

    /** The reconciliations of one run, `done` of them finished. Unless it is cancelled it attempts
        its whole batch, whoever fails, and moves the cursor behind it; cancelled before, during or
        after a tenant, it keeps the cursor behind the last tenant it was done with. */
    method RunOnce() returns (error: Option<Error>, ghost done: nat)
      requires Sorted(tenants) && Trimmed(quotaCursor)
      modifies this
      ensures Trimmed(quotaCursor)
      ensures batchLimit <= 0 ==>
        error == Some(Invalid) && attempted == old(attempted) && quotaCursor == old(quotaCursor)
      ensures batchLimit > 0 ==> error != Some(Invalid) && (old(Uncancelled()) ==> error == None && Uncancelled())
      ensures batchLimit > 0 ==>
        var batch := Batch(tenants, old(quotaCursor), batchLimit);
        && (error == None ==>
          attempted == old(attempted) + batch && quotaCursor == CursorAfter(tenants, old(quotaCursor), batchLimit))
        && (error == None ==>
          GoesOn(old(cancellations), old(outcomes), |batch|) && !CancelledBefore(old(cancellations), |batch|))
        && (error.Some? ==> Interrupted(old(cancellations), old(outcomes), batch, old(attempted), attempted, done))
        && (done > 0 ==> done <= |batch| && quotaCursor == batch[done - 1])
    {
      var listed := NextBatch();
      if listed.None? {
        return Some(Invalid), 0;
      }
      var cancelled;
      cancelled, done := ReconcileBatch(listed.value);
      if !cancelled {
        cancelled := ContextCancelledNow();
        assert listed.value[..done] == listed.value;
      }
      error := if cancelled then Some(ContextCancelled) else None;
      if done > 0 {
        BatchIsTrimmed(tenants, old(quotaCursor), batchLimit, done - 1);
      }
    }

    method ReconcileBatch(ids: seq<string>) returns (cancelled: bool, ghost done: nat)
      modifies this
      ensures quotaCursor == if done > 0 && done <= |ids| then ids[done - 1] else old(quotaCursor)
      ensures !cancelled ==>
        done == |ids| && attempted == old(attempted) + ids && GoesOn(old(cancellations), old(outcomes), |ids|)
      ensures !cancelled ==> cancellations == Drop(old(cancellations), |ids|) && outcomes == Drop(old(outcomes), |ids|)
      ensures cancelled ==> Interrupted(old(cancellations), old(outcomes), ids, old(attempted), attempted, done)
    {
      done := 0;
      for i := 0 to |ids|
        invariant attempted == old(attempted) + ids[..i] && done == i
        invariant quotaCursor == if i > 0 then ids[i - 1] else old(quotaCursor)
        invariant cancellations == Drop(old(cancellations), i) && outcomes == Drop(old(outcomes), i)
        invariant GoesOn(old(cancellations), old(outcomes), i)
      {
        SeenLater(old(cancellations), old(outcomes), i);
        cancelled := ContextCancelledNow();
        if cancelled {
          return;
        }
        var outcome := Reconcile(ids[i]);
        assert ids[..i + 1] == ids[..i] + [ids[i]];
        if outcome == Cancelled {
          return true, done;
        }
        quotaCursor := ids[i];
        done := i + 1;
      }
      assert ids[..|ids|] == ids;
      return false, done;
    }
  }

  /** A run is cancelled after `done` tenants of the batch, by the first cancellation there is: noticed
      before the next tenant or after the last, which is then not attempted, or during it. */
  predicate Interrupted(cancellations: seq<bool>, outcomes: seq<Outcome>, ids: seq<string>, before: seq<string>,
      after: seq<string>, done: nat) {
    && done <= |ids| && GoesOn(cancellations, outcomes, done)
    && if CancelledBefore(cancellations, done) then after == before + ids[..done]
       else done < |ids| && CancelledDuring(outcomes, done) && after == before + ids[..done + 1]
  }

  lemma BatchIsTrimmed(ids: seq<string>, cursor: string, limit: nat, i: nat)
    requires Sorted(ids) && i < |Batch(ids, cursor, limit)|
    ensures Trimmed(Batch(ids, cursor, limit)[i])
  {
  }
}
