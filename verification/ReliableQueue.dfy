/** The Redis work queue: every Lua script or single command is one atomic `Step` on the
    lists, sorted set and hashes. Any number of workers and recoverers, interleaved and
    crashing anywhere, produce some sequence of steps, so a statement about every `Run` is a
    statement about every interleaving. */
module ReliableQueue {
  import opened Wrappers

  type TaskId = string

  /** The stored claim time; the hash can hold text that `tonumber` rejects. */
  datatype ClaimStamp = Millis(at: int) | Unparsable

  datatype State = State(
    pending: seq<TaskId>,
    processing: seq<TaskId>,
    delayed: map<TaskId, int>,
    dead: seq<TaskId>,
    reasons: map<TaskId, string>,
    claims: map<TaskId, ClaimStamp>,
    deliveries: map<TaskId, nat>)

  datatype Step =
    | Enqueue(id: TaskId)
    | Move
    | RecordClaim(id: TaskId, now: int)
    | Ack(id: TaskId)
    | RetryNow(id: TaskId)
    | RetryLater(id: TaskId, due: int)
    | DeadLetter(id: TaskId, reason: string)
    | Recover(id: TaskId, before: int)
    | Promote(id: TaskId)
    | Ensure(id: TaskId)

  function RemoveFirst(s: seq<TaskId>, x: TaskId): seq<TaskId> {
    if s == [] then [] else if s[0] == x then s[1..] else [s[0]] + RemoveFirst(s[1..], x)
  }

  function Deliveries(s: State, id: TaskId): nat {
    if id in s.deliveries then s.deliveries[id] else 0
  }

  function Claim(s: State, id: TaskId): Option<ClaimStamp> {
    if id in s.claims then Some(s.claims[id]) else None
  }

  /** A claim that still protects its processing entry from recovery. */
  predicate Fresh(claim: Option<ClaimStamp>, before: int) {
    claim.Some? && claim.value.Millis? && claim.value.at > before
  }

  predicate InFlight(s: State, id: TaskId) {
    id in s.pending || id in s.processing || id in s.delayed
  }

  /** Whether the script returns 1 (for commands without such a result: whether they act). */
  predicate Moved(s: State, step: Step) {
    match step
    case Enqueue(_) => true
    case Move => s.pending != []
    case RecordClaim(_, _) => true
    case Ack(id) => id in s.processing
    case RetryNow(id) => id in s.processing
    case RetryLater(id, _) => id in s.processing
    case DeadLetter(id, _) => id in s.processing
    case Recover(id, before) => id in s.processing && !Fresh(Claim(s, id), before)
    case Promote(id) => id in s.delayed
    case Ensure(id) => !InFlight(s, id)
  }

  /** Takes the entry out of the processing list and forgets its claim time. */
  function Leave(s: State, id: TaskId): State {
    s.(processing := RemoveFirst(s.processing, id), claims := s.claims - {id})
  }

  function PushPending(s: State, id: TaskId): State {
    s.(pending := s.pending + [id])
  }

  function PushDead(s: State, id: TaskId, reason: string): State {
    s.(dead := s.dead + [id], reasons := if reason != "" then s.reasons[id := reason] else s.reasons)
  }

  function Apply(s: State, step: Step): State {
    if !Moved(s, step) then s else
      match step
      case Enqueue(id) => PushPending(s, id)
      case Move => s.(pending := s.pending[1..], processing := s.processing + [s.pending[0]])
      case RecordClaim(id, now) =>
        s.(deliveries := s.deliveries[id := Deliveries(s, id) + 1], claims := s.claims[id := Millis(now)])
      case Ack(id) => Leave(s, id).(deliveries := s.deliveries - {id})
      case RetryNow(id) => Leave(PushPending(s, id), id)
      case RetryLater(id, due) => Leave(s.(delayed := s.delayed[id := due]), id)
      case DeadLetter(id, reason) => Leave(PushDead(s, id, reason), id)
      case Recover(id, _) => Leave(PushPending(s, id), id)
      case Promote(id) => PushPending(s, id).(delayed := s.delayed - {id})
      case Ensure(id) => PushPending(s, id)
  }

  function Run(s: State, steps: seq<Step>): State
    decreases steps
  {
    if steps == [] then s else Run(Apply(s, steps[0]), steps[1..])
  }

  lemma {:induction false} RunAppend(s: State, first: seq<Step>, second: seq<Step>)
    ensures Run(s, first + second) == Run(Run(s, first), second)
    decreases first
  {
    if first == [] {
      assert first + second == second;
    } else {
      assert (first + second)[1..] == first[1..] + second;
      RunAppend(Apply(s, first[0]), first[1..], second);
    }
  }

  // ---------------------------------------------------------------------------------------
  // One task seen on its own: counters instead of lists.

  datatype TaskView = TaskView(
    pending: nat, processing: nat, due: Option<int>, dead: nat, claim: Option<ClaimStamp>, deliveries: nat)

  ghost function View(s: State, id: TaskId): TaskView {
    TaskView(
      Count(s.pending, id), Count(s.processing, id),
      if id in s.delayed then Some(s.delayed[id]) else None,
      Count(s.dead, id), Claim(s, id), Deliveries(s, id))
  }

  /** The task a step concerns. */
  function Target(s: State, step: Step): Option<TaskId> {
    match step
    case Move => if s.pending == [] then None else Some(s.pending[0])
    case Enqueue(id) => Some(id)
    case RecordClaim(id, _) => Some(id)
    case Ack(id) => Some(id)
    case RetryNow(id) => Some(id)
    case RetryLater(id, _) => Some(id)
    case DeadLetter(id, _) => Some(id)
    case Recover(id, _) => Some(id)
    case Promote(id) => Some(id)
    case Ensure(id) => Some(id)
  }

  /** The life cycle of one task, as a machine over its counters. */
  ghost function Next(v: TaskView, step: Step): TaskView {
    if step.RecordClaim? then v.(claim := Some(Millis(step.now)), deliveries := v.deliveries + 1)
    else if step.Enqueue? || (step.Ensure? && v.pending + v.processing == 0 && v.due.None?)
      then v.(pending := v.pending + 1)
    else if step.Move? && v.pending > 0 then v.(pending := v.pending - 1, processing := v.processing + 1)
    else if step.Promote? && v.due.Some? then v.(pending := v.pending + 1, due := None)
    else if v.processing == 0 || step.Move? || step.Promote? || step.Ensure? then v
    else if step.Recover? && Fresh(v.claim, step.before) then v
    else
      var left := v.(processing := v.processing - 1, claim := None);
      match step
      case Ack(_) => left.(deliveries := 0)
      case RetryLater(_, due) => left.(due := Some(due))
      case DeadLetter(_, _) => left.(dead := v.dead + 1)
      case _ => left.(pending := v.pending + 1)
  }

  /** How often `x` occurs in `s`. */
  ghost function Count(s: seq<TaskId>, x: TaskId): (n: nat)
    ensures n > 0 <==> x in s
  {
    if s == [] then 0 else (if s[0] == x then 1 else 0) + Count(s[1..], x)
  }

  lemma {:induction false} RemoveFirstCounts(s: seq<TaskId>, x: TaskId, y: TaskId)
    requires x in s
    ensures Count(RemoveFirst(s, x), y) == Count(s, y) - (if x == y then 1 else 0)
  {
    if s[0] != x {
      RemoveFirstCounts(s[1..], x, y);
    }
  }

  lemma {:induction false} AppendCounts(s: seq<TaskId>, x: TaskId, id: TaskId)
    ensures Count(s + [x], id) == Count(s, id) + (if x == id then 1 else 0)
  {
    if s != [] {
      assert (s + [x])[1..] == s[1..] + [x];
      AppendCounts(s[1..], x, id);
    }
  }

  lemma LeaveView(s: State, x: TaskId, id: TaskId)
    requires x in s.processing
    ensures View(Leave(s, x), id) == if x == id
            then View(s, id).(processing := View(s, id).processing - 1, claim := None) else View(s, id)
  {
    RemoveFirstCounts(s.processing, x, id);
  }

  lemma PushPendingView(s: State, x: TaskId, id: TaskId)
    ensures View(PushPending(s, x), id) == if x == id
            then View(s, id).(pending := View(s, id).pending + 1) else View(s, id)
  {
    AppendCounts(s.pending, x, id);
  }

  lemma PushDeadView(s: State, x: TaskId, reason: string, id: TaskId)
    ensures View(PushDead(s, x, reason), id) == if x == id
            then View(s, id).(dead := View(s, id).dead + 1) else View(s, id)
  {
    AppendCounts(s.dead, x, id);
  }

  /** An entry that leaves processing for one of the other places. */
  lemma NextLeaves(v: TaskView, step: Step)
    requires v.processing > 0 && (step.Ack? || step.RetryNow? || step.RetryLater? || step.DeadLetter?)
    ensures var left := v.(processing := v.processing - 1, claim := None);
      Next(v, step)
      == if step.Ack? then left.(deliveries := 0)
         else if step.RetryNow? then left.(pending := v.pending + 1)
         else if step.RetryLater? then left.(due := Some(step.due))
         else left.(dead := v.dead + 1)
  {
  }

  /** The scripts that put a processing entry back into pending. */
  lemma RequeueingScriptsRefine(s: State, step: Step, id: TaskId)
    requires step.RetryNow? || step.Recover?
    ensures View(Apply(s, step), id) == if step.id == id then Next(View(s, id), step) else View(s, id)
  {
    if Moved(s, step) {
      PushPendingView(s, step.id, id);
      LeaveView(PushPending(s, step.id), step.id, id);
    }
  }

  lemma AckRefines(s: State, x: TaskId, id: TaskId)
    ensures View(Apply(s, Ack(x)), id) == if x == id then Next(View(s, id), Ack(x)) else View(s, id)
  {
    if x in s.processing {
      LeaveView(s, x, id);
    }
  }

  lemma RetryLaterRefines(s: State, x: TaskId, due: int, id: TaskId)
    ensures View(Apply(s, RetryLater(x, due)), id)
         == if x == id then Next(View(s, id), RetryLater(x, due)) else View(s, id)
  {
    if x in s.processing {
      LeaveView(s.(delayed := s.delayed[x := due]), x, id);
    }
  }

  lemma DeadLetterRefines(s: State, x: TaskId, reason: string, id: TaskId)
    ensures View(Apply(s, DeadLetter(x, reason)), id)
         == if x == id then Next(View(s, id), DeadLetter(x, reason)) else View(s, id)
  {
    if x in s.processing {
      DeadLetterView(s, x, reason, id);
      if x == id {
        NextLeaves(View(s, id), DeadLetter(x, reason));
      }
    }
  }

  lemma DeadLetterView(s: State, x: TaskId, reason: string, id: TaskId)
    requires x in s.processing
    ensures View(Leave(PushDead(s, x, reason), x), id) == if x == id
            then View(s, id).(processing := View(s, id).processing - 1, claim := None, dead := View(s, id).dead + 1)
            else View(s, id)
  {
    PushDeadView(s, x, reason, id);
    LeaveView(PushDead(s, x, reason), x, id);
  }

  lemma PopPendingView(s: State, id: TaskId)
    requires s.pending != []
    ensures View(s.(pending := s.pending[1..]), id) == if s.pending[0] == id
            then View(s, id).(pending := View(s, id).pending - 1) else View(s, id)
  {
  }

  lemma PushProcessingView(s: State, x: TaskId, id: TaskId)
    ensures View(s.(processing := s.processing + [x]), id) == if x == id
            then View(s, id).(processing := View(s, id).processing + 1) else View(s, id)
  {
    AppendCounts(s.processing, x, id);
  }

  lemma MoveRefines(s: State, id: TaskId)
    ensures View(Apply(s, Move), id) == if Target(s, Move) == Some(id) then Next(View(s, id), Move) else View(s, id)
  {
    if s.pending != [] {
      PopPendingView(s, id);
      PushProcessingView(s.(pending := s.pending[1..]), s.pending[0], id);
    }
  }

  /** The scripts that add to pending. */
  lemma ArrivingScriptsRefine(s: State, step: Step, id: TaskId)
    requires step.Enqueue? || step.Ensure? || step.Promote?
    ensures View(Apply(s, step), id) == if step.id == id then Next(View(s, id), step) else View(s, id)
  {
    PushPendingView(s, step.id, id);
    if step.Promote? && step.id in s.delayed {
      UndelayView(PushPending(s, step.id), step.id, id);
    }
  }

  lemma UndelayView(s: State, x: TaskId, id: TaskId)
    ensures View(s.(delayed := s.delayed - {x}), id) == if x == id then View(s, id).(due := None) else View(s, id)
  {
  }

  /** The scripts implement the life cycle: the task a step names follows `Next`, and every
      other task keeps its counters, its claim and its delivery count. */
  lemma ScriptsRefineLifeCycle(s: State, step: Step, id: TaskId)
    ensures View(Apply(s, step), id) == if Target(s, step) == Some(id) then Next(View(s, id), step) else View(s, id)
  {
    match step {
      case Move => MoveRefines(s, id);
      case RecordClaim(_, _) =>
      case Ack(x) => AckRefines(s, x, id);
      case RetryLater(x, due) => RetryLaterRefines(s, x, due, id);
      case DeadLetter(x, reason) => DeadLetterRefines(s, x, reason, id);
      case RetryNow(_) => RequeueingScriptsRefine(s, step, id);
      case Recover(_, _) => RequeueingScriptsRefine(s, step, id);
      case _ => ArrivingScriptsRefine(s, step, id);
    }
  }

  // ---------------------------------------------------------------------------------------
  // No task is lost.

  ghost function Total(v: TaskView): nat {
    v.pending + v.processing + if v.due.Some? then 1 else 0
  }

  /** Copies of the task waiting or being worked on. */
  ghost function Copies(s: State, id: TaskId): nat {
    Total(View(s, id))
  }

  lemma InFlightIffCopies(s: State, id: TaskId)
    ensures InFlight(s, id) <==> Copies(s, id) > 0
  {
  }

  /** The step takes the task out of the queue for good: an effective ack or dead letter. */
  predicate Settles(s: State, step: Step, id: TaskId) {
    (step.Ack? || step.DeadLetter?) && step.id == id && id in s.processing
  }

  /** The step puts a new copy of the task in. */
  predicate Enters(s: State, step: Step, id: TaskId) {
    step == Enqueue(id) || (step == Ensure(id) && !InFlight(s, id))
  }

  /** `ZADD` on a task that is already delayed: two copies become one. */
  predicate Merges(s: State, step: Step, id: TaskId) {
    step.RetryLater? && step.id == id && id in s.processing && id in s.delayed
  }

  function Entered(s: State, steps: seq<Step>, id: TaskId): nat
    decreases steps
  {
    if steps == [] then 0
    else (if Enters(s, steps[0], id) then 1 else 0) + Entered(Apply(s, steps[0]), steps[1..], id)
  }

  function Settled(s: State, steps: seq<Step>, id: TaskId): nat
    decreases steps
  {
    if steps == [] then 0
    else (if Settles(s, steps[0], id) then 1 else 0) + Settled(Apply(s, steps[0]), steps[1..], id)
  }

  function Merged(s: State, steps: seq<Step>, id: TaskId): nat
    decreases steps
  {
    if steps == [] then 0
    else (if Merges(s, steps[0], id) then 1 else 0) + Merged(Apply(s, steps[0]), steps[1..], id)
  }

  lemma NextConservesTotal(v: TaskView, step: Step)
    ensures Total(Next(v, step))
         == Total(v)
            + (if step.Enqueue? || (step.Ensure? && Total(v) == 0) then 1 else 0)
            - (if (step.Ack? || step.DeadLetter?) && v.processing > 0 then 1 else 0)
            - (if step.RetryLater? && v.processing > 0 && v.due.Some? then 1 else 0)
  {
  }

  lemma StepConservesCopies(s: State, step: Step, id: TaskId)
    ensures Copies(Apply(s, step), id) + (if Settles(s, step, id) then 1 else 0)
      + (if Merges(s, step, id) then 1 else 0)
         == Copies(s, id) + (if Enters(s, step, id) then 1 else 0)
  {
    ScriptsRefineLifeCycle(s, step, id);
    var after := View(Apply(s, step), id);
    NextConservesTotal(View(s, id), step);
    InFlightIffCopies(s, id);
  }

  /** Conservation: over any run the copies of a task change by exactly what entered, minus
      what was acked or dead-lettered, minus what a second delayed retry merged. */
  lemma {:induction false} CopiesAreConserved(s: State, steps: seq<Step>, id: TaskId)
    ensures Copies(Run(s, steps), id) + Settled(s, steps, id) + Merged(s, steps, id)
         == Copies(s, id) + Entered(s, steps, id)
    decreases steps
  {
    if steps != [] {
      StepConservesCopies(s, steps[0], id);
      CopiesAreConserved(Apply(s, steps[0]), steps[1..], id);
    }
  }

  /** No lost task: whatever the steps, a task in flight stays in flight until a step
      effectively acks or dead-letters it. */
  lemma {:induction false} NoLostTask(s: State, steps: seq<Step>, id: TaskId)
    requires InFlight(s, id)
    requires Settled(s, steps, id) == 0
    ensures InFlight(Run(s, steps), id)
    decreases steps
  {
    if steps != [] {
      StepConservesCopies(s, steps[0], id);
      InFlightIffCopies(s, id);
      InFlightIffCopies(Apply(s, steps[0]), id);
      NoLostTask(Apply(s, steps[0]), steps[1..], id);
    }
  }

  /** The same from the producer's side: after an enqueue or a delivery repair, whatever ran
      before it and whatever runs after it. */
  lemma {:induction false} EnteredTaskIsNotLost(s: State, before: seq<Step>, entry: Step, after: seq<Step>, id: TaskId)
    requires entry == Enqueue(id) || entry == Ensure(id)
    requires Settled(Apply(Run(s, before), entry), after, id) == 0
    ensures InFlight(Run(s, before + [entry] + after), id)
  {
    RunAppend(s, before + [entry], after);
    RunAppend(s, before, [entry]);
    assert Run(Run(s, before), [entry]) == Apply(Run(s, before), entry) by {
      assert [entry][1..] == [];
    }
    NoLostTask(Apply(Run(s, before), entry), after, id);
  }

  // ---------------------------------------------------------------------------------------
  // Multiplicity.

  /** No step but an enqueue of the task raises its copies above one. */
  lemma OnlyEnqueueDuplicates(s: State, step: Step, id: TaskId)
    requires step != Enqueue(id)
    ensures Copies(Apply(s, step), id) <= if Copies(s, id) > 1 then Copies(s, id) else 1
  {
    ScriptsRefineLifeCycle(s, step, id);
  }

  /** A task that enters only by delivery repair is single-copy in every state of every run. */
  lemma {:induction false} RepairedTaskStaysSingle(s: State, steps: seq<Step>, id: TaskId)
    requires Copies(s, id) <= 1
    requires Enqueue(id) !in steps
    ensures Copies(Run(s, steps), id) <= 1
    decreases steps
  {
    if steps != [] {
      OnlyEnqueueDuplicates(s, steps[0], id);
      RepairedTaskStaysSingle(Apply(s, steps[0]), steps[1..], id);
    }
  }

  // ---------------------------------------------------------------------------------------
  // Order of service.

  /** Every step but `Move` only appends to the pending list. */
  lemma PendingOnlyGrowsAtTheEnd(s: State, step: Step)
    ensures if step.Move? && s.pending != []
            then s.pending == [s.pending[0]] + Apply(s, step).pending
                 && Apply(s, step).processing == s.processing + [s.pending[0]]
            else s.pending <= Apply(s, step).pending
  {
  }

  function Moves(steps: seq<Step>): nat {
    if steps == [] then 0 else (if steps[0].Move? then 1 else 0) + Moves(steps[1..])
  }

  /** First in, first out over whole runs: whatever is pending now is handed to workers in
      its order, and nothing that arrives later overtakes it. */
  lemma {:induction false} PendingIsServedInOrder(s: State, steps: seq<Step>)
    requires Moves(steps) <= |s.pending|
    ensures s.pending[Moves(steps)..] <= Run(s, steps).pending
    decreases steps
  {
    if steps != [] {
      PendingOnlyGrowsAtTheEnd(s, steps[0]);
      var t := Apply(s, steps[0]);
      PendingIsServedInOrder(t, steps[1..]);
      if steps[0].Move? {
        assert t.pending[Moves(steps[1..])..] == s.pending[Moves(steps)..];
      } else {
        assert s.pending[Moves(steps)..] <= t.pending[Moves(steps)..];
      }
    }
  }

  // ---------------------------------------------------------------------------------------
  // Delivery bound.

  /** A delivery count that is still handed out as live work; a maximum of zero or less is none. */
  predicate LiveDelivery(count: nat, max: int) {
    max > 0 ==> count <= max
  }

  /** How often the run hands the task out as live work: claims recorded with a delivery count
      within the maximum. */
  function Handouts(s: State, steps: seq<Step>, id: TaskId, max: int): nat
    decreases steps
  {
    if steps == [] then 0
    else
      (if steps[0].RecordClaim? && steps[0].id == id && LiveDelivery(Deliveries(s, id) + 1, max) then 1 else 0)
      + Handouts(Apply(s, steps[0]), steps[1..], id, max)
  }

  function Claims(steps: seq<Step>, id: TaskId): nat {
    if steps == [] then 0 else (if steps[0].RecordClaim? && steps[0].id == id then 1 else 0) + Claims(steps[1..], id)
  }

  function EffectiveAcks(s: State, steps: seq<Step>, id: TaskId): nat
    decreases steps
  {
    if steps == [] then 0
    else
      (if steps[0] == Ack(id) && Moved(s, steps[0]) then 1 else 0)
      + EffectiveAcks(Apply(s, steps[0]), steps[1..], id)
  }

  lemma {:induction false} DeliveriesNeverDrop(s: State, steps: seq<Step>, id: TaskId)
    requires EffectiveAcks(s, steps, id) == 0
    ensures Deliveries(Run(s, steps), id) >= Deliveries(s, id)
    decreases steps
  {
    if steps != [] {
      ScriptsRefineLifeCycle(s, steps[0], id);
      DeliveriesNeverDrop(Apply(s, steps[0]), steps[1..], id);
    }
  }

  /** Two claims of a task with no effective ack between them carry strictly increasing
      delivery counts. */
  lemma {:induction false} DeliveryCountsIncrease(s: State, first: int, between: seq<Step>, second: int, id: TaskId)
    requires EffectiveAcks(Apply(s, RecordClaim(id, first)), between, id) == 0
    ensures
      var claimed := Apply(s, RecordClaim(id, first));
      var again := Apply(Run(claimed, between), RecordClaim(id, second));
      Deliveries(claimed, id) < Deliveries(again, id)
  {
    DeliveriesNeverDrop(Apply(s, RecordClaim(id, first)), between, id);
  }

  /** Without an effective ack, the live hand-outs left are what the count leaves. */
  lemma {:induction false} HandoutsLeft(s: State, steps: seq<Step>, id: TaskId, max: int)
    requires EffectiveAcks(s, steps, id) == 0
    ensures max > 0 ==> Handouts(s, steps, id, max) <= if Deliveries(s, id) <= max then max - Deliveries(s, id) else 0
    ensures max <= 0 ==> Handouts(s, steps, id, max) == Claims(steps, id)
    decreases steps
  {
    if steps != [] {
      ScriptsRefineLifeCycle(s, steps[0], id);
      HandoutsLeft(Apply(s, steps[0]), steps[1..], id, max);
    }
  }

  /** Between two effective acks of a task it is handed out as live work at most `max` times,
      and the count starts again at one; without a maximum every claim hands it out. */
  lemma {:induction false} DeliveryBound(s: State, steps: seq<Step>, now: int, id: TaskId, max: int)
    requires Moved(s, Ack(id))
    requires EffectiveAcks(Apply(s, Ack(id)), steps, id) == 0
    ensures max > 0 ==> Handouts(Apply(s, Ack(id)), steps, id, max) <= max
    ensures max <= 0 ==> Handouts(Apply(s, Ack(id)), steps, id, max) == Claims(steps, id)
    ensures Deliveries(Apply(Apply(s, Ack(id)), RecordClaim(id, now)), id) == 1
  {
    HandoutsLeft(Apply(s, Ack(id)), steps, id, max);
  }

  // ---------------------------------------------------------------------------------------
  // Recovery.

  /** Recovery moves a task exactly when it is being processed and its claim is missing,
      unreadable, or not younger than the cut-off; it then waits at the end of the pending
      list with its delivery count kept. */
  lemma RecoveryIsExact(s: State, id: TaskId, before: int)
    ensures (Apply(s, Recover(id, before)) != s) <==>
            (id in s.processing && (id in s.claims ==> s.claims[id].Unparsable? || s.claims[id].at <= before))
    ensures Apply(s, Recover(id, before)) != s ==>
              && Apply(s, Recover(id, before)).pending == s.pending + [id]
              && Apply(s, Recover(id, before)).deliveries == s.deliveries
              && id !in Apply(s, Recover(id, before)).claims
              && Copies(Apply(s, Recover(id, before)), id) == Copies(s, id)
  {
    ScriptsRefineLifeCycle(s, Recover(id, before), id);
  }

  /** No effective ack in a run: at no point of it an ack of the task finds it in processing. */
  lemma {:induction false} NoEffectiveAck(s: State, steps: seq<Step>, id: TaskId)
    ensures EffectiveAcks(s, steps, id) == 0 <==>
      forall k :: 0 <= k < |steps| && steps[k] == Ack(id) ==> id !in Run(s, steps[..k]).processing
    decreases steps
  {
    if steps != [] {
      NoEffectiveAck(Apply(s, steps[0]), steps[1..], id);
      assert steps[..0] == [];
      forall k | 0 < k < |steps|
        ensures steps[k] == steps[1..][k - 1] && Run(s, steps[..k]) == Run(Apply(s, steps[0]), steps[1..][..k - 1])
      {
        assert steps[..k][0] == steps[0] && steps[..k][1..] == steps[1..][..k - 1];
      }
      if forall k :: 0 <= k < |steps| && steps[k] == Ack(id) ==> id !in Run(s, steps[..k]).processing {
        forall k | 0 <= k < |steps[1..]| && steps[1..][k] == Ack(id)
          ensures id !in Run(Apply(s, steps[0]), steps[1..][..k]).processing
        {
          assert steps[k + 1] == Ack(id);
          assert Run(s, steps[..k + 1]) == Run(Apply(s, steps[0]), steps[1..][..k + 1 - 1]);
        }
      }
    }
  }

  /** The dead-letter script that acts is the only one to store a reason, unless it is empty. */
  lemma ReasonsAreKept(s: State, step: Step)
    ensures Apply(s, step).reasons ==
      if step.DeadLetter? && step.id in s.processing && step.reason != "" then s.reasons[step.id := step.reason]
        else s.reasons
  {
  }

  const EMPTY := State([], [], map[], [], map[], map[], map[])
}
