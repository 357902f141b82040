/** One client of the Redis work queue, looping as the Go code does. Every command is one
    atomic step; before each of them the other clients may have taken any steps at all, read
    off `others`. A crash is a client that issues no further commands. */
module ReliableQueueClient {
  import EarliestFirst
  import opened ReliableQueue
  import Text
  import opened Wrappers

  datatype Error = Unavailable | InvalidConfig | InvalidTask | InvalidClaim

  datatype ClaimResult =
    | Live(id: TaskId, count: nat)
    | DeadLettered(id: TaskId, count: nat)
    | NoTask
    | Failed(error: Error)

  const DEFAULT_LIMIT := 100

  function EffectiveLimit(limit: int): (n: nat)
    ensures n > 0
  {
    if limit <= 0 then DEFAULT_LIMIT else limit
  }

  ghost function PromoteSteps(ids: seq<TaskId>): seq<Step> {
    seq(|ids|, i requires 0 <= i < |ids| => Promote(ids[i]))
  }

  ghost function RecoverSteps(ids: seq<TaskId>, before: int): seq<Step> {
    seq(|ids|, i requires 0 <= i < |ids| => Recover(ids[i], before))
  }

  ghost function Elements(ids: seq<TaskId>): set<TaskId> {
    set x | x in ids
  }

  lemma {:induction false} CountSuffix(s: seq<TaskId>, i: nat, x: TaskId)
    requires i < |s|
    ensures Count(s[i..], x) == (if s[i] == x then 1 else 0) + Count(s[i + 1..], x)
  {
    assert s[i..][1..] == s[i + 1..];
  }

  /** Whatever is being processed without a fresh claim is still to be visited. */
  ghost predicate StaleAmong(s: State, tasks: seq<TaskId>, before: int) {
    forall x {:trigger Count(tasks, x)} :: !Fresh(ReliableQueue.Claim(s, x), before) ==>
      Count(s.processing, x) == Count(tasks, x)
  }

  lemma RecoverStepKeeps(s: State, tasks: seq<TaskId>, i: nat, before: int)
    requires i < |tasks| && StaleAmong(s, tasks[i..], before)
    ensures StaleAmong(Apply(s, Recover(tasks[i], before)), tasks[i + 1..], before)
  {
    var after := Apply(s, Recover(tasks[i], before));
    forall x | !Fresh(ReliableQueue.Claim(after, x), before)
      ensures Count(after.processing, x) == Count(tasks[i + 1..], x)
    {
      ScriptsRefineLifeCycle(s, Recover(tasks[i], before), x);
      assert View(after, x).claim == ReliableQueue.Claim(after, x);
      CountSuffix(tasks, i, x);
    }
  }

  predicate CleanId(id: TaskId) {
    id != "" && Text.Trimmed(id)
  }

  predicate AllClean(ids: seq<TaskId>) {
    forall i :: 0 <= i < |ids| ==> CleanId(ids[i])
  }

  lemma RecoverStepsSnoc(ids: seq<TaskId>, id: TaskId, before: int)
    ensures RecoverSteps(ids + [id], before) == RecoverSteps(ids, before) + [Recover(id, before)]
  {
  }

  lemma NothingStale(s: State, before: int)
    ensures StaleAmong(s, [], before) ==> forall x :: x in s.processing ==> Fresh(ReliableQueue.Claim(s, x), before)
  {
    forall x | StaleAmong(s, [], before) && x in s.processing ensures Fresh(ReliableQueue.Claim(s, x), before) {
      assert Count(s.processing, x) > 0 && Count([], x) == 0;
    }
  }

  predicate LastIs(s: seq<TaskId>, x: TaskId) {
    s != [] && s[|s| - 1] == x
  }

  /** What a claim makes of the head of the queue: nothing without one, an error of a blank id, else
      a delivery of the trimmed id. */
  predicate ClaimedHead(r: ClaimResult, head: Option<TaskId>) {
    && (r.NoTask? <==> head == None)
    && (r.Failed? <==> head.Some? && Text.TrimSpace(head.value) == "")
    && (r.Failed? ==> r.error == InvalidTask)
    && (r.Live? || r.DeadLettered? ==> r.id == Text.TrimSpace(head.value))
  }

  predicate Due(s: State, now: int, x: TaskId) {
    x in s.delayed && s.delayed[x] <= now
  }

  /** The task that is at the head once what is due has been promoted: the oldest pending one, or
      else one that is due before all others. */
  ghost predicate IsHead(s: State, now: int, head: Option<TaskId>) {
    if s.pending != [] then head == Some(s.pending[0])
    else if head == None then forall x :: !Due(s, now, x)
    else Due(s, now, head.value) && forall x :: Due(s, now, x) ==> s.delayed[head.value] <= s.delayed[x]
  }

  lemma HeadAfterPromotion(s: State, now: int, promoted: seq<TaskId>, pending: seq<TaskId>, head: Option<TaskId>)
    requires EarliestFirst.Selected(s.delayed, now, 100, promoted) && pending == s.pending + promoted
    requires head == if pending == [] then None else Some(pending[0])
    ensures IsHead(s, now, head)
  {
  }

  lemma ReasonIsTrimmed()
    ensures Text.TrimSpace("max_deliveries_exceeded") == "max_deliveries_exceeded"
  {
    assert Text.Trimmed("max_deliveries_exceeded");
  }

  class RedisReliableTaskQueue {
    const queue: string
    const claimTimeout: int
    const visibilityTimeout: int
    const maxDeliveries: int

    var state: State
    var others: seq<seq<Step>>

    ghost const start: State
    /** Every step taken on the shared data so far. */
    ghost var history: seq<Step>
    /** This client's own steps that acted. */
    ghost var effects: seq<Step>

    ghost predicate Valid()
      reads this
    {
      state == Run(start, history)
    }

    constructor (queue: string, claimTimeout: int, visibilityTimeout: int, maxDeliveries: int,
                 state: State, others: seq<seq<Step>>)
      ensures Valid() && this.state == state && this.others == others && effects == []
      ensures this.queue == Text.TrimSpace(queue) && this.claimTimeout == claimTimeout
      ensures this.visibilityTimeout == visibilityTimeout && this.maxDeliveries == maxDeliveries
    {
      this.queue := Text.TrimSpace(queue);
      this.claimTimeout, this.visibilityTimeout, this.maxDeliveries := claimTimeout, visibilityTimeout, maxDeliveries;
      this.state, this.others := state, others;
      this.start, this.history, this.effects := state, [], [];
    }

    function Validate(): (error: Option<Error>)
      ensures error == None <==> queue != "" && claimTimeout > 0 && visibilityTimeout > 0
      ensures error == Some(Unavailable) <==> queue == ""
      ensures error.Some? ==> error.value == Unavailable || error.value == InvalidConfig
    {
      if queue == "" then Some(Unavailable)
      else if claimTimeout <= 0 || visibilityTimeout <= 0 then Some(InvalidConfig)
      else None
    }

    /** The other clients' steps since this client's last command. */
    method Interfere()
      requires Valid()
      modifies this`state, this`others, this`history
      ensures Valid() && old(history) <= history
      ensures old(others) == [] ==> state == old(state) && history == old(history) && others == []
      ensures old(others) != [] ==> state == Run(old(state), old(others)[0]) && others == old(others)[1..]
      ensures old(others) != [] ==> history == old(history) + old(others)[0]
    {
      if others != [] {
        state := RunSteps(others[0]);
        RunAppend(start, history, others[0]);
        history := history + others[0];
        others := others[1..];
      }
    }

    method RunSteps(steps: seq<Step>) returns (result: State)
      ensures result == Run(state, steps)
    {
      result := state;
      for i := 0 to |steps|
        invariant Run(result, steps[i..]) == Run(state, steps)
      {
        assert steps[i..][1..] == steps[i + 1..];
        result := Apply(result, steps[i]);
      }
    }

    /** One command, atomically. */
    method Perform(step: Step) returns (moved: bool)
      requires Valid()
      modifies this`state, this`history, this`effects
      ensures Valid() && moved == Moved(old(state), step) && state == Apply(old(state), step)
      ensures history == old(history) + [step]
      ensures effects == old(effects) + if moved then [step] else []
    {
      RunAppend(start, history, [step]);
      assert Run(state, [step]) == Apply(state, step);
      moved := Moved(state, step);
      state := Apply(state, step);
      history := history + [step];
      effects := effects + if moved then [step] else [];
    }

    method Execute(step: Step) returns (moved: bool)
      requires Valid()
      modifies this`state, this`others, this`history, this`effects
      ensures Valid() && old(history) < history && history[|history| - 1] == step
      ensures effects == old(effects) + if moved then [step] else []
      ensures old(others) == [] ==> others == [] && moved == Moved(old(state), step) && state == Apply(old(state), step)
    {
      Interfere();
      moved := Perform(step);
    }

    /** The task is queued under its trimmed id; a blank id or a bad configuration changes nothing. */
    method EnqueueTask(taskID: string) returns (error: Option<Error>)
      requires Valid()
      modifies this`state, this`others, this`history, this`effects
      ensures Valid() && old(history) <= history
      ensures error == if Text.TrimSpace(taskID) == "" then Some(InvalidTask) else Validate()
      ensures effects == old(effects) + if error == None then [Enqueue(Text.TrimSpace(taskID))] else []
      ensures error != None ==> state == old(state)
      ensures error == None && old(others) == [] ==>
        state == old(state).(pending := old(state).pending + [Text.TrimSpace(taskID)])
    {
      var id := Text.TrimSpace(taskID);
      if id == "" {
        return Some(InvalidTask);
      }
      error := Validate();
      if error == None {
        Interfere();
        var _ := Perform(Enqueue(id));
      }
    }

    /** Moves due tasks to pending. Only ids that were due in the snapshot are moved, never more
        than the limit; with no other client active, all of them up to the limit, in due order. */
    method PromoteDue(now: int, limit: int) returns (promoted: seq<TaskId>, error: Option<Error>)
      requires Valid()
      modifies this`state, this`others, this`history, this`effects
      ensures Valid() && old(history) <= history
      ensures error == Validate()
      ensures error != None ==> promoted == [] && state == old(state)
      ensures if limit > 0 then |promoted| <= limit else |promoted| <= 100
      ensures effects == old(effects) + PromoteSteps(promoted)
      ensures old(others) == [] ==>
        && others == []
        && state.pending == old(state).pending + promoted
        && state.delayed == old(state).delayed - Elements(promoted)
        && state == old(state).(pending := state.pending, delayed := state.delayed)
        && (error == None ==>
              EarliestFirst.Selected(old(state).delayed, now, if limit > 0 then limit else 100, promoted))
        && (error == None && |promoted| < (if limit > 0 then limit else 100) ==>
              forall x :: x in state.delayed ==> state.delayed[x] > now)
    {
      promoted := [];
      error := Validate();
      if error != None {
        assert PromoteSteps([]) == [];
        return;
      }
      Interfere();
      var taskIDs := EarliestFirst.Ids(state.delayed, now, EffectiveLimit(limit));
      promoted := PromoteAll(taskIDs);
    }

    /** The promotion script for each of the ids. */
    method PromoteAll(taskIDs: seq<TaskId>) returns (promoted: seq<TaskId>)
      requires Valid() && forall i, j :: 0 <= i < j < |taskIDs| ==> taskIDs[i] != taskIDs[j]
      modifies this`state, this`others, this`history, this`effects
      ensures Valid() && old(history) <= history
      ensures |promoted| <= |taskIDs| && effects == old(effects) + PromoteSteps(promoted)
      ensures old(others) == [] && (forall x :: x in taskIDs ==> x in old(state).delayed) ==>
        && others == [] && promoted == taskIDs
        && state == old(state).(pending := old(state).pending + taskIDs,
          delayed := old(state).delayed - Elements(taskIDs))
    {
      promoted := [];
      ghost var quiet := others == [] && forall x :: x in taskIDs ==> x in state.delayed;
      assert PromoteSteps([]) == [];
      for i := 0 to |taskIDs|
        invariant Valid() && old(history) <= history
        invariant |promoted| <= i
        invariant effects == old(effects) + PromoteSteps(promoted)
        invariant quiet ==> others == [] && promoted == taskIDs[..i] && state.pending == old(state).pending + promoted
        invariant quiet ==> state.delayed == old(state).delayed - Elements(taskIDs[..i])
        invariant quiet ==> state == old(state).(pending := state.pending, delayed := state.delayed)
      {
        assert taskIDs[..i + 1] == taskIDs[..i] + [taskIDs[i]];
        assert Elements(taskIDs[..i + 1]) == Elements(taskIDs[..i]) + {taskIDs[i]};
        var moved := Execute(Promote(taskIDs[i]));
        if moved {
          assert PromoteSteps(promoted + [taskIDs[i]]) == PromoteSteps(promoted) + [Promote(taskIDs[i])];
          promoted := promoted + [taskIDs[i]];
        }
      }
      assert taskIDs[..|taskIDs|] == taskIDs;
    }

    /** What a claim's id and the configuration must satisfy before its script runs. */
    function CheckClaim(claimID: TaskId): (error: Option<Error>)
      ensures error == None <==>
        Text.TrimSpace(claimID) != "" && queue != "" && claimTimeout > 0 && visibilityTimeout > 0
      ensures error == Some(InvalidClaim) <==> Text.TrimSpace(claimID) == ""
    {
      if Text.TrimSpace(claimID) == "" then Some(InvalidClaim) else Validate()
    }

    method Ack(claimID: TaskId) returns (error: Option<Error>)
      requires Valid()
      modifies this`state, this`others, this`history, this`effects
      ensures Valid() && old(history) <= history
      ensures error == CheckClaim(claimID)
      ensures error != None ==> state == old(state) && effects == old(effects)
      ensures error == None ==>
        old(history) < history && history[|history| - 1] == ReliableQueue.Ack(Text.TrimSpace(claimID))
      ensures error == None && old(others) == [] ==>
        state == Apply(old(state), ReliableQueue.Ack(Text.TrimSpace(claimID)))
    {
      error := CheckClaim(claimID);
      if error == None {
        var moved := Execute(ReliableQueue.Ack(Text.TrimSpace(claimID)));
      }
    }

    /** A delay of zero or less goes straight back to pending; a positive one is scheduled. */
    method Retry(claimID: TaskId, delay: int, now: int) returns (error: Option<Error>)
      requires Valid()
      modifies this`state, this`others, this`history, this`effects
      ensures Valid() && old(history) <= history
      ensures error == CheckClaim(claimID)
      ensures error != None ==> state == old(state) && effects == old(effects)
      ensures error == None ==> old(history) < history
      ensures error == None ==> history[|history| - 1] == (if delay <= 0 then RetryNow(Text.TrimSpace(claimID))
                                                            else RetryLater(Text.TrimSpace(claimID), now + delay))
      ensures error == None && old(others) == [] ==>
        state == Apply(old(state), if delay <= 0 then RetryNow(Text.TrimSpace(claimID))
                                   else RetryLater(Text.TrimSpace(claimID), now + delay))
    {
      error := CheckClaim(claimID);
      if error == None {
        if delay <= 0 {
          var moved := Execute(RetryNow(Text.TrimSpace(claimID)));
        } else {
          var moved := Execute(RetryLater(Text.TrimSpace(claimID), now + delay));
        }
      }
    }

    /** The reason is stored trimmed, and not at all when it is blank. */
    method DeadLetter(claimID: TaskId, reason: string) returns (error: Option<Error>)
      requires Valid()
      modifies this`state, this`others, this`history, this`effects
      ensures error == None && old(others) == [] ==>
        && state.pending == old(state).pending && state.delayed == old(state).delayed
        && state.reasons == (if Text.TrimSpace(claimID) in old(state).processing && Text.TrimSpace(reason) != ""
                             then old(state).reasons[Text.TrimSpace(claimID) := Text.TrimSpace(reason)]
                             else old(state).reasons)
      ensures Valid() && old(history) <= history
      ensures error == CheckClaim(claimID)
      ensures error != None ==> state == old(state) && effects == old(effects)
      ensures error == None ==> old(history) < history
      ensures error == None ==>
        history[|history| - 1] == ReliableQueue.DeadLetter(Text.TrimSpace(claimID), Text.TrimSpace(reason))
      ensures error == None && old(others) == [] ==>
        state == Apply(old(state), ReliableQueue.DeadLetter(Text.TrimSpace(claimID), Text.TrimSpace(reason)))
    {
      error := CheckClaim(claimID);
      if error == None {
        var moved := Execute(ReliableQueue.DeadLetter(Text.TrimSpace(claimID), Text.TrimSpace(reason)));
      }
    }

    /** `BLMOVE` from the head of pending; nothing when pending stays empty. */
    method TakeHead() returns (head: Option<TaskId>)
      requires Valid()
      modifies this`state, this`others, this`history, this`effects
      ensures Valid() && old(history) < history
      ensures effects == old(effects) + if head.Some? then [Move] else []
      ensures old(others) == [] ==> others == [] && state == Apply(old(state), Move)
      ensures old(others) == [] ==> head == if old(state).pending == [] then None else Some(old(state).pending[0])
      ensures if head == None then state.pending == [] else LastIs(state.processing, head.value)
    {
      Interfere();
      head := if state.pending == [] then None else Some(state.pending[0]);
      var moved := Perform(Move);
    }

    method RecordClaimOf(taskID: TaskId, now: int) returns (delivery: nat)
      requires Valid()
      modifies this`state, this`others, this`history, this`effects
      ensures Valid() && old(history) < history && history[|history| - 1] == RecordClaim(taskID, now)
      ensures effects == old(effects) + [RecordClaim(taskID, now)]
      ensures delivery == Deliveries(state, taskID) > 0 && ReliableQueue.Claim(state, taskID) == Some(Millis(now))
      ensures old(others) == [] ==> delivery == Deliveries(old(state), taskID) + 1 && others == []
      ensures old(others) == [] ==> state.pending == old(state).pending && state.delayed == old(state).delayed
    {
      Interfere();
      var moved := Perform(RecordClaim(taskID, now));
      delivery := Deliveries(state, taskID);
    }

    /** Hands out a task just moved to processing. Live work carries the delivery count this claim
        itself recorded, within the configured maximum; beyond it the task goes to the dead list. */
    method Deliver(taskID: TaskId, now: int) returns (r: ClaimResult)
      requires Valid() && Validate() == None && CleanId(taskID)
      modifies this`state, this`others, this`history, this`effects
      ensures Valid() && old(history) <= history && (r.Live? || r.DeadLettered?) && r.id == taskID && 0 < r.count
      ensures r.Live? <==> LiveDelivery(r.count, maxDeliveries)
      ensures r.Live? ==>
        && (maxDeliveries > 0 ==> r.count <= maxDeliveries)
        && effects == old(effects) + [RecordClaim(taskID, now)]
        && history != [] && history[|history| - 1] == RecordClaim(taskID, now)
        && Deliveries(state, taskID) == r.count && ReliableQueue.Claim(state, taskID) == Some(Millis(now))
      ensures r.DeadLettered? ==>
        && 0 < maxDeliveries < r.count
        && history != [] && history[|history| - 1] == ReliableQueue.DeadLetter(taskID, "max_deliveries_exceeded")
      ensures old(others) == [] ==> r.count == Deliveries(old(state), taskID) + 1
      ensures old(others) == [] ==> state.pending == old(state).pending && state.delayed == old(state).delayed
    {
      var deliveryCount := RecordClaimOf(taskID, now);
      if maxDeliveries > 0 && deliveryCount > maxDeliveries {
        ReasonIsTrimmed();
        var failure := DeadLetter(taskID, "max_deliveries_exceeded");
        return DeadLettered(taskID, deliveryCount);
      }
      return Live(taskID, deliveryCount);
    }

    /** The claim after promotion, of the task at the head of the queue. */
    method ClaimHead(now: int) returns (r: ClaimResult, ghost head: Option<TaskId>)
      requires Valid() && Validate() == None
      modifies this`state, this`others, this`history, this`effects
      ensures Valid() && old(history) <= history
      ensures ClaimedHead(r, head) && (r.NoTask? ==> state.pending == [])
      ensures r.Failed? ==> effects == old(effects) + [Move] && LastIs(state.processing, head.value)
      ensures r.Live? ==>
        && 0 < r.count && (maxDeliveries > 0 ==> r.count <= maxDeliveries)
        && effects == old(effects) + [Move, RecordClaim(r.id, now)]
        && history != [] && history[|history| - 1] == RecordClaim(r.id, now)
        && Deliveries(state, r.id) == r.count && ReliableQueue.Claim(state, r.id) == Some(Millis(now))
      ensures r.DeadLettered? ==>
        && 0 < maxDeliveries < r.count
        && history != [] && history[|history| - 1] == ReliableQueue.DeadLetter(r.id, "max_deliveries_exceeded")
      ensures old(others) == [] ==> head == if old(state).pending == [] then None else Some(old(state).pending[0])
      ensures old(others) == [] && r.NoTask? ==> state == old(state)
      ensures old(others) == [] ==> state.delayed == old(state).delayed
      ensures old(others) == [] ==> state.pending == if head == None then [] else old(state).pending[1..]
      ensures old(others) == [] && (r.Live? || r.DeadLettered?) ==> r.count == Deliveries(old(state), r.id) + 1
    {
      var found := TakeHead();
      head := found;
      if found == None {
        return NoTask, None;
      }
      var taskID := Text.TrimSpace(found.value);
      if taskID == "" {
        return Failed(InvalidTask), found;
      }
      r := Deliver(taskID, now);
    }

    /** Promotes what is due, then takes the oldest pending task: none if there is none, an error if
        its id is blank. */
    method Claim(now: int) returns (r: ClaimResult, ghost head: Option<TaskId>)
      requires Valid()
      modifies this`state, this`others, this`history, this`effects
      ensures Valid() && old(history) <= history
      ensures Validate() != None ==> r == Failed(Validate().value) && state == old(state)
      ensures Validate() == None ==> ClaimedHead(r, head) && (r.NoTask? ==> state.pending == [])
      ensures Validate() == None && r.Failed? ==>
        effects != [] && effects[|effects| - 1] == Move && LastIs(state.processing, head.value)
      ensures r.Live? ==>
        && 0 < r.count && (maxDeliveries > 0 ==> r.count <= maxDeliveries)
        && |effects| >= 2 && effects[|effects| - 2..] == [Move, RecordClaim(r.id, now)]
        && history != [] && history[|history| - 1] == RecordClaim(r.id, now)
        && Deliveries(state, r.id) == r.count && ReliableQueue.Claim(state, r.id) == Some(Millis(now))
      ensures r.DeadLettered? ==>
        && 0 < maxDeliveries < r.count
        && history != [] && history[|history| - 1] == ReliableQueue.DeadLetter(r.id, "max_deliveries_exceeded")
      ensures old(others) == [] && Validate() == None ==> IsHead(old(state), now, head)
      ensures old(others) == [] && Validate() == None ==> exists promoted ::
        && EarliestFirst.Selected(old(state).delayed, now, 100, promoted)
        && state.delayed == old(state).delayed - Elements(promoted)
        && old(state).pending + promoted == (if head == None then [] else [head.value] + state.pending)
      ensures old(others) == [] && r.NoTask? ==> forall x :: x in state.delayed ==> state.delayed[x] > now
      ensures old(others) == [] && (r.Live? || r.DeadLettered?) ==> r.count == Deliveries(old(state), r.id) + 1
    {
      var promoted, error := PromoteDue(now, 100);
      if error != None {
        return Failed(error.value), None;
      }
      ghost var before := state;
      r, head := ClaimHead(now);
      if old(others) == [] {
        HeadAfterPromotion(old(state), now, promoted, before.pending, head);
      }
    }

    /** The recovery script for the i-th entry of the snapshot; blank entries are passed over. */
    method RecoverEntry(tasks: seq<TaskId>, i: nat, before: int) returns (moved: bool)
      requires Valid() && i < |tasks|
      modifies this`state, this`others, this`history, this`effects
      ensures Valid() && old(history) <= history
      ensures effects == old(effects) + if moved then [Recover(Text.TrimSpace(tasks[i]), before)] else []
      ensures old(others) == [] ==> others == []
      ensures Text.TrimSpace(tasks[i]) == "" ==> !moved && state == old(state)
      ensures old(others) == [] && CleanId(tasks[i]) ==>
        state.pending == old(state).pending + if moved then [tasks[i]] else []
      ensures old(others) == [] && CleanId(tasks[i]) && StaleAmong(old(state), tasks[i..], before) ==>
        StaleAmong(state, tasks[i + 1..], before)
    {
      moved := false;
      if Text.TrimSpace(tasks[i]) != "" {
        moved := Execute(Recover(Text.TrimSpace(tasks[i]), before));
      }
      if old(others) == [] && CleanId(tasks[i]) && StaleAmong(old(state), tasks[i..], before) {
        RecoverStepKeeps(old(state), tasks, i, before);
      }
    }

    /** The recovery loop over a snapshot of the processing list. */
    method RecoverEntries(tasks: seq<TaskId>, before: int, limit: nat) returns (recovered: seq<TaskId>)
      requires Valid() && limit > 0
      modifies this`state, this`others, this`history, this`effects
      ensures Valid() && old(history) <= history && |recovered| <= limit && "" !in recovered
      ensures effects == old(effects) + RecoverSteps(recovered, before)
      ensures old(others) == [] && AllClean(tasks) && StaleAmong(old(state), tasks, before) ==>
        && state.pending == old(state).pending + recovered
        && (|recovered| < limit ==> StaleAmong(state, [], before))
    {
      recovered := [];
      assert RecoverSteps([], before) == [] && tasks[0..] == tasks;
      ghost var quiet := old(others) == [] && AllClean(tasks) && StaleAmong(state, tasks, before);
      var i := 0;
      while i < |tasks| && |recovered| < limit
        invariant 0 <= i <= |tasks| && |recovered| <= limit && "" !in recovered
        invariant Valid() && old(history) <= history
        invariant effects == old(effects) + RecoverSteps(recovered, before)
        invariant quiet ==> others == [] && state.pending == old(state).pending + recovered
        invariant quiet ==> StaleAmong(state, tasks[i..], before)
      {
        var moved := RecoverEntry(tasks, i, before);
        var taskID := Text.TrimSpace(tasks[i]);
        assert quiet ==> StaleAmong(state, tasks[i + 1..], before);
        i := i + 1;
        if moved {
          RecoverStepsSnoc(recovered, taskID, before);
          recovered := recovered + [taskID];
        }
      }
      assert tasks[|tasks|..] == [];
    }

    /** Puts stale processing entries back into pending: at most `limit`, each of them through
        the recovery script with the cut-off `now - visibilityTimeout`. With no other client
        active, whatever is still being processed below the limit holds a fresh claim. */
    method RecoverStale(now: int, limit: int) returns (recovered: seq<TaskId>, error: Option<Error>)
      requires Valid()
      modifies this`state, this`others, this`history, this`effects
      ensures Valid() && old(history) <= history
      ensures error == Validate()
      ensures error != None ==> recovered == [] && state == old(state)
      ensures (if limit > 0 then |recovered| <= limit else |recovered| <= 100) && "" !in recovered
      ensures effects == old(effects) + RecoverSteps(recovered, now - visibilityTimeout)
      ensures error == None && old(others) == [] && AllClean(old(state).processing) ==>
        && state.pending == old(state).pending + recovered
        && (|recovered| < (if limit > 0 then limit else 100) ==>
              forall x :: x in state.processing ==>
                x in state.claims && state.claims[x].Millis? && state.claims[x].at > now - visibilityTimeout)
    {
      recovered := [];
      error := Validate();
      assert RecoverSteps([], now - visibilityTimeout) == [];
      if error == None {
        Interfere();
        recovered := RecoverEntries(state.processing, now - visibilityTimeout, EffectiveLimit(limit));
        NothingStale(state, now - visibilityTimeout);
      }
    }

    /** Queues the task only when no copy of it is pending, processing or delayed. */
    method EnsureDelivery(taskID: string) returns (repaired: bool, error: Option<Error>)
      requires Valid()
      modifies this`state, this`others, this`history, this`effects
      ensures Valid() && old(history) <= history
      ensures error == if Text.TrimSpace(taskID) == "" then Some(InvalidTask) else Validate()
      ensures error != None ==> !repaired && state == old(state)
      ensures repaired ==> effects == old(effects) + [Ensure(Text.TrimSpace(taskID))]
      ensures error == None ==> InFlight(state, Text.TrimSpace(taskID))
      ensures error == None && old(others) == [] ==> repaired == !InFlight(old(state), Text.TrimSpace(taskID))
    {
      repaired := false;
      var id := Text.TrimSpace(taskID);
      if id == "" {
        return false, Some(InvalidTask);
      }
      error := Validate();
      if error == None {
        Interfere();
        repaired := Perform(Ensure(id));
      }
    }
  }
}
