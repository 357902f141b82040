/** What a claim is worth. Claim times are stored per task and the scripts are not told which claim
    a call stems from; so here every processing entry carries the ticket of the move that made it,
    and each result says exactly when the entry a script removes is the caller's own. */
module QueueClaims {
  import opened ReliableQueue
  import opened Wrappers

  // ---------------------------------------------------------------------------------------
  // Claim times and processing entries.

  /** Only tasks in processing have a claim time. */
  ghost predicate Covered(s: State) {
    forall id :: id in s.claims ==> id in s.processing
  }

  /** A claim recorded for a task that is no longer in processing: recovery has taken it back
      between the worker's move and its claim record. */
  predicate Strays(s: State, step: Step) {
    step.RecordClaim? && step.id !in s.processing
  }

  lemma StepKeepsCover(s: State, step: Step)
    requires Covered(s)
    ensures Covered(Apply(s, step)) <==> !Strays(s, step)
  {
    var t := Apply(s, step);
    forall id | id in t.claims && !Strays(s, step) ensures id in t.processing {
      ScriptsRefineLifeCycle(s, step, id);
      assert View(t, id).claim.Some? && (View(s, id).claim.Some? ==> id in s.processing);
    }
    if Strays(s, step) {
      ScriptsRefineLifeCycle(s, step, step.id);
      assert step.id in t.claims && step.id !in t.processing;
    }
  }

  ghost predicate AlwaysCovered(s: State, steps: seq<Step>)
    decreases steps
  {
    Covered(s) && (steps == [] || AlwaysCovered(Apply(s, steps[0]), steps[1..]))
  }

  predicate NeverStrays(s: State, steps: seq<Step>)
    decreases steps
  {
    steps == [] || (!Strays(s, steps[0]) && NeverStrays(Apply(s, steps[0]), steps[1..]))
  }

  /** Claim times exist only for tasks in processing, in every state of a run, if and only if no
      claim is recorded for a task that has been taken back. */
  lemma {:induction false} CoveredExactlyWhenNoClaimStrays(s: State, steps: seq<Step>)
    requires Covered(s)
    ensures AlwaysCovered(s, steps) <==> NeverStrays(s, steps)
    decreases steps
  {
    if steps != [] {
      StepKeepsCover(s, steps[0]);
      if !Strays(s, steps[0]) {
        CoveredExactlyWhenNoClaimStrays(Apply(s, steps[0]), steps[1..]);
      }
    }
  }

  /** A run from the empty queue in which one does. */
  lemma ClaimCanOutliveProcessing(id: TaskId, now: int)
    ensures var steps := [Enqueue(id), Move, Recover(id, now), RecordClaim(id, now)];
      !NeverStrays(EMPTY, steps) && !Covered(Run(EMPTY, steps))
  {
    var one := Apply(EMPTY, Enqueue(id));
    var two := Apply(one, Move);
    assert two == EMPTY.(processing := [id]);
    var three := Apply(two, Recover(id, now));
    assert three == EMPTY.(pending := [id]);
    var four := Apply(three, RecordClaim(id, now));
    var steps := [Enqueue(id), Move, Recover(id, now), RecordClaim(id, now)];
    assert steps[1..][1..] == steps[2..] && steps[2..][1..] == steps[3..] && steps[3..][1..] == [];
    assert Run(three, steps[3..]) == four && !NeverStrays(three, steps[3..]);
    assert Run(two, steps[2..]) == four && !NeverStrays(two, steps[2..]);
    assert Run(one, steps[1..]) == four && !NeverStrays(one, steps[1..]);
    assert id in four.claims && id !in four.processing;
  }

  // ---------------------------------------------------------------------------------------
  // Whose entry a script removes.

  /** The queue with the ticket of each processing entry: the number of the move that made it. */
  datatype Tagged = Tagged(state: State, tickets: seq<nat>, next: nat)

  predicate Ascending(tickets: seq<nat>, bound: nat) {
    && (forall i, j :: 0 <= i < j < |tickets| ==> tickets[i] < tickets[j])
    && (forall i :: 0 <= i < |tickets| ==> tickets[i] < bound)
  }

  /** Entries arrive at the end of the processing list, so tickets ascend. */
  predicate Valid(t: Tagged) {
    |t.tickets| == |t.state.processing| && Ascending(t.tickets, t.next)
  }

  /** `LREM` with count one removes the first entry of the task; its ticket goes with it. */
  function DropTicket(processing: seq<TaskId>, tickets: seq<nat>, id: TaskId): seq<nat>
    requires |tickets| == |processing|
  {
    if processing == [] then []
    else if processing[0] == id then tickets[1..]
    else [tickets[0]] + DropTicket(processing[1..], tickets[1..], id)
  }

  /** The tickets of one task's entries, in order. */
  function TicketsOf(processing: seq<TaskId>, tickets: seq<nat>, id: TaskId): seq<nat>
    requires |tickets| == |processing|
  {
    if processing == [] then []
    else (if processing[0] == id then [tickets[0]] else []) + TicketsOf(processing[1..], tickets[1..], id)
  }

  /** The step takes an entry of its task out of the processing list. */
  predicate Departs(s: State, step: Step) {
    (step.Ack? || step.RetryNow? || step.RetryLater? || step.DeadLetter? || step.Recover?) && Moved(s, step)
  }

  function TaggedApply(t: Tagged, step: Step): Tagged
    requires |t.tickets| == |t.state.processing|
  {
    Tagged(
      Apply(t.state, step),
      if step.Move? && Moved(t.state, step) then t.tickets + [t.next]
      else if Departs(t.state, step) then DropTicket(t.state.processing, t.tickets, step.id)
      else t.tickets,
      if step.Move? && Moved(t.state, step) then t.next + 1 else t.next)
  }

  /** The ticket of the entry the step removes. */
  function TicketTaken(t: Tagged, step: Step): Option<nat>
    requires |t.tickets| == |t.state.processing|
  {
    if !Departs(t.state, step) then None
    else
      TicketsNonEmpty(t.state.processing, t.tickets, step.id);
      Some(TicketsOf(t.state.processing, t.tickets, step.id)[0])
  }

  lemma {:induction false} TicketsNonEmpty(processing: seq<TaskId>, tickets: seq<nat>, id: TaskId)
    requires |tickets| == |processing|
    ensures |TicketsOf(processing, tickets, id)| == Count(processing, id)
  {
    if processing != [] {
      TicketsNonEmpty(processing[1..], tickets[1..], id);
    }
  }

  lemma {:induction false} TicketsAppend(processing: seq<TaskId>, tickets: seq<nat>, x: TaskId, k: nat, id: TaskId)
    requires |tickets| == |processing|
    ensures TicketsOf(processing + [x], tickets + [k], id)
      == TicketsOf(processing, tickets, id) + if x == id then [k] else []
  {
    if processing != [] {
      assert (processing + [x])[1..] == processing[1..] + [x] && (tickets + [k])[1..] == tickets[1..] + [k];
      TicketsAppend(processing[1..], tickets[1..], x, k, id);
      JoinsLast(if processing[0] == id then [tickets[0]] else [], TicketsOf(processing[1..], tickets[1..], id),
        if x == id then [k] else []);
    } else {
      assert processing + [x] == [x] && tickets + [k] == [k];
    }
  }

  lemma JoinsLast(first: seq<nat>, middle: seq<nat>, last: seq<nat>)
    ensures first + (middle + last) == first + middle + last
  {
  }

  lemma {:induction false} TicketsDrop(processing: seq<TaskId>, tickets: seq<nat>, x: TaskId, id: TaskId)
    requires |tickets| == |processing| && x in processing
    ensures |DropTicket(processing, tickets, x)| == |RemoveFirst(processing, x)| == |processing| - 1
    ensures var own := TicketsOf(processing, tickets, id);
      TicketsOf(RemoveFirst(processing, x), DropTicket(processing, tickets, x), id)
        == if x == id && own != [] then own[1..] else own
    ensures x == id ==> TicketsOf(processing, tickets, id) != []
  {
    if processing[0] != x {
      TicketsDrop(processing[1..], tickets[1..], x, id);
      var p, ts := RemoveFirst(processing[1..], x), DropTicket(processing[1..], tickets[1..], x);
      assert ([processing[0]] + p)[1..] == p && ([tickets[0]] + ts)[1..] == ts;
    }
  }

  lemma {:induction false} DropKeepsOrder(processing: seq<TaskId>, tickets: seq<nat>, x: TaskId, bound: nat)
    requires |tickets| == |processing| && Ascending(tickets, bound)
    ensures var left := DropTicket(processing, tickets, x);
      Ascending(left, bound) && (tickets != [] ==> forall i :: 0 <= i < |left| ==> left[i] >= tickets[0])
  {
    if processing != [] && processing[0] != x {
      DropKeepsOrder(processing[1..], tickets[1..], x, bound);
      var rest := DropTicket(processing[1..], tickets[1..], x);
      assert |processing| > 1 ==> tickets[0] < tickets[1..][0];
      assert |processing| == 1 ==> rest == [];
    }
  }

  lemma StepKeepsValid(t: Tagged, step: Step)
    requires Valid(t)
    ensures Valid(TaggedApply(t, step)) && TaggedApply(t, step).next >= t.next
  {
    if Departs(t.state, step) {
      TicketsDrop(t.state.processing, t.tickets, step.id, step.id);
      DropKeepsOrder(t.state.processing, t.tickets, step.id, t.next);
    }
  }

  /** One step on the tickets of one task: a queue of its own. */
  lemma {:induction false} StepOnTickets(t: Tagged, step: Step, id: TaskId)
    requires Valid(t)
    ensures var v := TaggedApply(t, step);
      && Valid(v) && v.next >= t.next
      && TicketsOf(v.state.processing, v.tickets, id)
         == (var own := TicketsOf(t.state.processing, t.tickets, id);
             if Departs(t.state, step) && step.id == id && own != [] then own[1..]
             else if step.Move? && t.state.pending != [] && t.state.pending[0] == id then own + [t.next]
             else own)
      && (Departs(t.state, step) && step.id == id ==> TicketsOf(t.state.processing, t.tickets, id) != [])
  {
    StepKeepsValid(t, step);
    if step.Move? && t.state.pending != [] {
      TicketsAppend(t.state.processing, t.tickets, t.state.pending[0], t.next, id);
    } else if Departs(t.state, step) {
      TicketsDrop(t.state.processing, t.tickets, step.id, id);
    }
  }

  function TaggedRun(t: Tagged, steps: seq<Step>): (v: Tagged)
    requires Valid(t)
    ensures Valid(v)
    decreases steps
  {
    if steps == [] then t
    else
      StepKeepsValid(t, steps[0]);
      TaggedRun(TaggedApply(t, steps[0]), steps[1..])
  }

  /** How often the run takes an entry of the task out of the processing list. */
  function Departures(s: State, steps: seq<Step>, id: TaskId): nat
    decreases steps
  {
    if steps == [] then 0
    else (if Departs(s, steps[0]) && steps[0].id == id then 1 else 0) + Departures(Apply(s, steps[0]), steps[1..], id)
  }

  /** The tickets left of `own` after d departures, followed by newer ones. */
  function Left(own: seq<nat>, d: nat, newer: seq<nat>): seq<nat> {
    (if d <= |own| then own[d..] else []) + newer
  }

  lemma LeftOfNext(own: seq<nat>, k: nat, d: nat, newer: seq<nat>)
    ensures own != [] ==> Left(own[1..], d, newer) == Left(own, d + 1, newer)
    ensures Left(own + [k], d, newer) == if d <= |own| then Left(own, d, [k] + newer) else Left(own, d, newer)
  {
    if own != [] && d <= |own[1..]| {
      assert own[1..][d..] == own[d + 1..];
    }
    if d <= |own| {
      assert (own + [k])[d..] + newer == own[d..] + ([k] + newer);
    }
  }

  lemma LeftAfterStep(t: Tagged, step: Step, id: TaskId, d: nat, later: seq<nat>) returns (newer: seq<nat>)
    requires Valid(t) && forall i :: 0 <= i < |later| ==> later[i] >= TaggedApply(t, step).next
    ensures Valid(TaggedApply(t, step))
    ensures var v := TaggedApply(t, step);
      Left(TicketsOf(v.state.processing, v.tickets, id), d, later)
      == Left(TicketsOf(t.state.processing, t.tickets, id),
        d + (if Departs(t.state, step) && step.id == id then 1 else 0), newer)
    ensures forall i :: 0 <= i < |newer| ==> newer[i] >= t.next
  {
    StepOnTickets(t, step, id);
    var moves := step.Move? && t.state.pending != [] && t.state.pending[0] == id;
    newer := LeftAcross(TicketsOf(t.state.processing, t.tickets, id), t.next, Departs(t.state, step) && step.id == id,
      moves, d, later);
  }

  lemma LeftAcross(own: seq<nat>, k: nat, departs: bool, arrives: bool, d: nat, later: seq<nat>)
      returns (newer: seq<nat>)
    requires (departs ==> own != [] && !arrives) && forall i :: 0 <= i < |later| ==> later[i] >= k
    ensures Left(if departs then own[1..] else if arrives then own + [k] else own, d, later)
         == Left(own, d + (if departs then 1 else 0), newer)
    ensures forall i :: 0 <= i < |newer| ==> newer[i] >= k
  {
    LeftOfNext(own, k, d, later);
    newer := if arrives && d <= |own| then [k] + later else later;
  }

  /** Over a run the oldest entries go first, and new ones come behind. */
  lemma {:induction false} OldestGoFirst(t: Tagged, steps: seq<Step>, id: TaskId) returns (newer: seq<nat>)
    requires Valid(t)
    ensures var v := TaggedRun(t, steps);
      TicketsOf(v.state.processing, v.tickets, id)
      == Left(TicketsOf(t.state.processing, t.tickets, id), Departures(t.state, steps, id), newer)
    ensures forall i :: 0 <= i < |newer| ==> newer[i] >= t.next
    decreases steps
  {
    if steps == [] {
      newer := [];
    } else {
      StepKeepsValid(t, steps[0]);
      var later := OldestGoFirst(TaggedApply(t, steps[0]), steps[1..], id);
      newer := LeftAfterStep(t, steps[0], id, Departures(Apply(t.state, steps[0]), steps[1..], id), later);
    }
  }

  /** Among the tickets left, one's own is first exactly when those before it have gone. */
  lemma FirstIsOwn(before: seq<nat>, k: nat, d: nat, newer: seq<nat>)
    requires forall i :: 0 <= i < |before| ==> before[i] < k
    requires forall i :: 0 <= i < |newer| ==> newer[i] > k
    ensures var left := Left(before + [k], d, newer);
      && (left != [] && left[0] == k <==> d == |before|)
      && (d < |before| ==> left != [] && left[0] < k)
      && (d > |before| && left != [] ==> left[0] > k)
  {
  }

  /** A worker's own call for the task it has claimed. */
  predicate SettlesTask(step: Step, id: TaskId) {
    (step.Ack? || step.RetryNow? || step.RetryLater? || step.DeadLetter?) && step.id == id
  }

  /** Whoever took the task with a move and settles it after any steps of anyone removes its own
      entry if and only if, since the move, exactly as many entries of the task have departed as
      were ahead of it; fewer, and it removes an older worker's; more, and its own is gone. */
  lemma {:induction false} OwnEntryIsSettled(t: Tagged, between: seq<Step>, settle: Step)
    requires Valid(t) && t.state.pending != [] && SettlesTask(settle, t.state.pending[0])
    ensures Valid(TaggedApply(t, Move))
    ensures var claimed := TaggedApply(t, Move);
      var taken := TicketTaken(TaggedRun(claimed, between), settle);
      var departed, ahead :=
        Departures(claimed.state, between, t.state.pending[0]), Count(t.state.processing, t.state.pending[0]);
      && (taken == Some(t.next) <==> departed == ahead)
      && (departed < ahead ==> taken.Some? && taken.value < t.next)
      && (departed > ahead ==> taken == None || taken.value > t.next)
  {
    var id, claimed := t.state.pending[0], TaggedApply(t, Move);
    StepOnTickets(t, Move, id);
    var before := TicketsOf(t.state.processing, t.tickets, id);
    TicketsNonEmpty(t.state.processing, t.tickets, id);
    TicketsAreBelow(t.state.processing, t.tickets, id, t.next);
    var newer := OldestGoFirst(claimed, between, id);
    FirstIsOwn(before, t.next, Departures(claimed.state, between, id), newer);
    TakenIsFirst(TaggedRun(claimed, between), settle, id);
  }

  lemma {:induction false} TakenIsFirst(v: Tagged, settle: Step, id: TaskId)
    requires Valid(v) && SettlesTask(settle, id)
    ensures var own := TicketsOf(v.state.processing, v.tickets, id);
      TicketTaken(v, settle) == if own == [] then None else Some(own[0])
  {
    TicketsNonEmpty(v.state.processing, v.tickets, id);
  }

  lemma {:induction false} TicketsAreBelow(processing: seq<TaskId>, tickets: seq<nat>, id: TaskId, bound: nat)
    requires |tickets| == |processing| && Ascending(tickets, bound)
    ensures forall i :: 0 <= i < |TicketsOf(processing, tickets, id)| ==> TicketsOf(processing, tickets, id)[i] < bound
  {
    if processing != [] {
      TicketsAreBelow(processing[1..], tickets[1..], id, bound);
    }
  }

  // ---------------------------------------------------------------------------------------
  // The same in terms of what the others did.

  /** Nobody acks, retries or dead-letters the task, and every recovery of it finds a claim time then on
      record that is above its cut-off. */
  predicate Undisturbed(claim: Option<ClaimStamp>, steps: seq<Step>, id: TaskId)
    decreases steps
  {
    steps == []
    || (match steps[0]
        case RecordClaim(other, now) => Undisturbed(if other == id then Some(Millis(now)) else claim, steps[1..], id)
        case Recover(other, before) => (other == id ==> Fresh(claim, before)) && Undisturbed(claim, steps[1..], id)
        case _ => !SettlesTask(steps[0], id) && Undisturbed(claim, steps[1..], id))
  }

  lemma {:induction false} NothingDeparts(s: State, steps: seq<Step>, id: TaskId)
    requires id in s.processing
    ensures Departures(s, steps, id) == 0 <==> Undisturbed(Claim(s, id), steps, id)
    decreases steps
  {
    if steps != [] {
      var step, t := steps[0], Apply(s, steps[0]);
      ScriptsRefineLifeCycle(s, step, id);
      if !(Departs(s, step) && step.id == id) {
        assert View(t, id).processing > 0;
        assert Claim(t, id) == if step.RecordClaim? && step.id == id then Some(Millis(step.now)) else Claim(s, id);
        NothingDeparts(t, steps[1..], id);
      }
    }
  }

  /** For a single-copy task just moved to processing: whenever its claim is then recorded, and whatever
      happens before and after, the worker's ack, retry or dead-letter removes its own entry if and
      only if until then nobody acks, retries or dead-letters the task, and every recovery of it
      finds a claim time above its cut-off. */
  lemma {:induction false} SingleCopyIsOwnExactlyWhenUndisturbed(t: Tagged, between: seq<Step>, settle: Step)
    requires Valid(t) && t.state.pending != [] && SettlesTask(settle, t.state.pending[0])
    requires Copies(t.state, t.state.pending[0]) == 1
    ensures var id, moved := t.state.pending[0], TaggedApply(t, Move);
      && Valid(moved)
      && (TicketTaken(TaggedRun(moved, between), settle) == Some(t.next) <==>
        Undisturbed(Claim(t.state, id), between, id))
  {
    var id := t.state.pending[0];
    OwnEntryIsSettled(t, between, settle);
    NothingDeparts(Apply(t.state, Move), between, id);
  }

  /** The late ack: worker one claims the task, recovery takes it back, worker two claims it, and
      then worker one's ack removes worker two's entry and with it the task. */
  function LateAck(id: TaskId, first: int, before: int, second: int): seq<Step> {
    [Enqueue(id), Move, RecordClaim(id, first), Recover(id, before), Move, RecordClaim(id, second)]
  }

  const START := Tagged(EMPTY, [], 0)

  lemma {:induction false} TaggedRunAppend(t: Tagged, first: seq<Step>, second: seq<Step>)
    requires Valid(t)
    ensures TaggedRun(t, first + second) == TaggedRun(TaggedRun(t, first), second)
    decreases first
  {
    if first == [] {
      assert first + second == second;
    } else {
      StepKeepsValid(t, first[0]);
      assert (first + second)[1..] == first[1..] + second;
      TaggedRunAppend(TaggedApply(t, first[0]), first[1..], second);
    }
  }

  lemma {:induction false} TwoSteps(t: Tagged, first: Step, second: Step)
    requires Valid(t)
    ensures Valid(TaggedApply(t, first)) && TaggedRun(t, [first, second]) == TaggedApply(TaggedApply(t, first), second)
  {
    StepKeepsValid(t, first);
    StepKeepsValid(TaggedApply(t, first), second);
    assert [first, second][1..] == [second] && [second][1..] == [];
    assert TaggedRun(TaggedApply(t, first), [second]) == TaggedRun(TaggedApply(TaggedApply(t, first), second), []);
  }

  /** Worker one takes the task. */
  lemma Taken(id: TaskId)
    ensures TaggedRun(START, [Enqueue(id), Move]) == Tagged(EMPTY.(processing := [id]), [0], 1)
  {
    TwoSteps(START, Enqueue(id), Move);
    assert TaggedApply(START, Enqueue(id)).state.pending == [id];
  }

  /** Its claim is recorded, and recovery takes the task back. */
  lemma {:induction false} TakenBack(id: TaskId, first: int, before: int, t: Tagged)
    requires first <= before && t == Tagged(EMPTY.(processing := [id]), [0], 1)
    ensures Valid(t)
    ensures TaggedRun(t, [RecordClaim(id, first), Recover(id, before)])
      == Tagged(EMPTY.(pending := [id], deliveries := map[id := 1]), [], 1)
  {
    TwoSteps(t, RecordClaim(id, first), Recover(id, before));
    var two := TaggedApply(t, RecordClaim(id, first));
    assert two.state.deliveries == map[id := 1];
    assert TaggedApply(two, Recover(id, before)).state.claims == map[];
  }

  /** Worker two takes it and records its claim. */
  lemma {:induction false} TakenAgain(id: TaskId, second: int, t: Tagged)
    requires t == Tagged(EMPTY.(pending := [id], deliveries := map[id := 1]), [], 1)
    ensures Valid(t)
    ensures var v := TaggedRun(t, [Move, RecordClaim(id, second)]);
      v.state.processing == [id] && v.state.pending == [] && v.state.delayed == map[] && v.tickets == [1] && v.next == 2
  {
    TwoSteps(t, Move, RecordClaim(id, second));
    assert TaggedApply(t, Move).state.processing == [id];
  }

  lemma LateAckRemovesNewOwner(id: TaskId, first: int, before: int, second: int)
    requires first <= before
    ensures TaggedRun(START, [Enqueue(id), Move]).tickets == [0]
    ensures var v := TaggedRun(START, LateAck(id, first, before, second));
      && v.tickets == [1] && TicketTaken(v, Ack(id)) == Some(1)
      && !InFlight(Apply(v.state, Ack(id)), id)
  {
    var a, b, c := [Enqueue(id), Move], [RecordClaim(id, first), Recover(id, before)], [Move, RecordClaim(id, second)];
    Taken(id);
    TakenBack(id, first, before, TaggedRun(START, a));
    TakenAgain(id, second, TaggedRun(TaggedRun(START, a), b));
    TaggedRunAppend(START, a, b);
    TaggedRunAppend(START, a + b, c);
    assert LateAck(id, first, before, second) == a + b + c;
    TakenIsFirst(TaggedRun(START, LateAck(id, first, before, second)), Ack(id), id);
  }
}
