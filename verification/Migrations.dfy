/** The migration runner. Statements commit one by one and the process may die between any two
    of them; the next run starts over and finds its way by guards and by the recorded ids. */
module Migrations {
  import Text
  import opened Wrappers

  datatype Table = Table(columns: set<string>, indexes: set<string>)

  type Schema = map<string, Table>

  /** The guarded statement forms: a table is created if absent; a column is added and an index
      created after the runner has looked whether they exist. */
  datatype Statement =
    | Blank
    | CreateTable(table: string, columns: set<string>, indexes: set<string>)
    | AddColumn(table: string, column: string)
    | CreateIndex(table: string, index: string, on: set<string>)

  datatype Check = Check(table: string, columns: seq<string>, indexes: seq<string>)

  datatype Migration = Migration(id: string, name: string, statements: seq<Statement>, checks: seq<Check>)

  /** `recorded` is the history table, a row for each migration. */
  datatype Db = Db(schema: Schema, recorded: seq<string>)

  datatype Outcome = Completed | Failed | Crashed

  datatype Ending = Ending(outcome: Outcome, db: Db)

  // ---------------------------------------------------------------------------------------
  // One run without a crash.

  /** What the database makes of a statement that it is sent: it refuses a column or an index that is
      already there; only tables are created if absent. */
  function Answer(schema: Schema, s: Statement): Option<Schema> {
    match s
    case Blank => Some(schema)
    case CreateTable(t, columns, indexes) =>
      if t in schema then Some(schema) else Some(schema[t := Table(columns, indexes)])
    case AddColumn(t, c) =>
      if t !in schema || c in schema[t].columns then None
      else Some(schema[t := schema[t].(columns := schema[t].columns + {c})])
    case CreateIndex(t, i, on) =>
      if t !in schema || i in schema[t].indexes || !(on <= schema[t].columns) then None
      else Some(schema[t := schema[t].(indexes := schema[t].indexes + {i})])
  }

  /** What a statement is to do, once or again: the new schema, or none if it cannot be done. */
  function Execute(schema: Schema, s: Statement): Option<Schema> {
    match s
    case Blank => Some(schema)
    case CreateTable(t, columns, indexes) =>
      if t in schema then Some(schema) else Some(schema[t := Table(columns, indexes)])
    case AddColumn(t, c) =>
      if t in schema && c in schema[t].columns then Some(schema)
      else if t !in schema then None
      else Some(schema[t := schema[t].(columns := schema[t].columns + {c})])
    case CreateIndex(t, i, on) =>
      if t in schema && i in schema[t].indexes then Some(schema)
      else if t !in schema || !(on <= schema[t].columns) then None
      else Some(schema[t := schema[t].(indexes := schema[t].indexes + {i})])
  }

  /** The schema after the first k statements, or none if one of them was refused. */
  function ExecuteFirst(schema: Schema, statements: seq<Statement>, k: nat): Option<Schema>
    requires k <= |statements|
  {
    if k == 0 then Some(schema) else
      match ExecuteFirst(schema, statements, k - 1)
      case None => None
      case Some(reached) => Execute(reached, statements[k - 1])
  }

  /** The schema when the statements have been gone through as far as the database lets. */
  function Furthest(schema: Schema, statements: seq<Statement>, k: nat): Schema
    requires k <= |statements|
  {
    match ExecuteFirst(schema, statements, k)
    case Some(reached) => reached
    case None => Furthest(schema, statements, k - 1)
  }

  predicate CheckHolds(schema: Schema, c: Check) {
    var t := Text.TrimSpace(c.table);
    && t != "" && t in schema
    && (forall i :: 0 <= i < |c.columns| ==>
      Text.TrimSpace(c.columns[i]) != "" && Text.TrimSpace(c.columns[i]) in schema[t].columns)
    && (forall i :: 0 <= i < |c.indexes| ==>
      Text.TrimSpace(c.indexes[i]) != "" && Text.TrimSpace(c.indexes[i]) in schema[t].indexes)
  }

  predicate ChecksHold(schema: Schema, m: Migration) {
    forall i :: 0 <= i < |m.checks| ==> CheckHolds(schema, m.checks[i])
  }

  predicate Defined(m: Migration) {
    Text.TrimSpace(m.id) != "" && Text.TrimSpace(m.name) != ""
  }

  /** A migration's statements, if it is not recorded yet, and its record. */
  function Apply(db: Db, m: Migration): Ending {
    if m.id in db.recorded then Ending(Completed, db)
    else
      var n := |m.statements|;
      var reached := Furthest(db.schema, m.statements, n);
      if ExecuteFirst(db.schema, m.statements, n) == None then Ending(Failed, db.(schema := reached))
      else Ending(Completed, Db(reached, db.recorded + [m.id]))
  }

  function RunOne(db: Db, m: Migration): Ending {
    if !Defined(m) then Ending(Failed, db)
    else
      var applied := Apply(db, m);
      if applied.outcome == Completed && !ChecksHold(applied.db.schema, m) then Ending(Failed, applied.db) else applied
  }

  function Run(db: Db, list: seq<Migration>): Ending
    decreases list
  {
    if list == [] then Ending(Completed, db)
    else
      var first := RunOne(db, list[0]);
      if first.outcome != Completed then first else Run(first.db, list[1..])
  }

  // ---------------------------------------------------------------------------------------
  // Where a run may have died.

  /** The states a run passes through, before, between and after its effects. */
  predicate Passes(db: Db, list: seq<Migration>, mid: Db)
    decreases list
  {
    || mid == db
    || (list != [] && Defined(list[0]) && PassesWithin(db, list[0], mid))
    || (list != [] && RunOne(db, list[0]).outcome == Completed && Passes(RunOne(db, list[0]).db, list[1..], mid))
  }

  predicate PassesWithin(db: Db, m: Migration, mid: Db) {
    || mid == Apply(db, m).db
    || (m.id !in db.recorded && mid.recorded == db.recorded
        && exists k :: 0 <= k <= |m.statements| && ExecuteFirst(db.schema, m.statements, k) == Some(mid.schema))
  }

  // ---------------------------------------------------------------------------------------
  // Schemas only grow.

  predicate Within(small: Schema, large: Schema) {
    forall t :: t in small ==>
      t in large && small[t].columns <= large[t].columns && small[t].indexes <= large[t].indexes
  }

  /** What the statement is for is there. */
  predicate Done(schema: Schema, s: Statement) {
    match s
    case Blank => true
    case CreateTable(t, _, _) => t in schema
    case AddColumn(t, c) => t in schema && c in schema[t].columns
    case CreateIndex(t, i, _) => t in schema && i in schema[t].indexes
  }

  /** Why the runner looks first: sent again, just a blank statement or a table's would be accepted,
      while what the runner makes of a statement can be repeated at will. */
  lemma RepeatedStatement(schema: Schema, s: Statement)
    ensures Answer(schema, s).Some? ==> (Answer(Answer(schema, s).value, s).Some? <==> s.Blank? || s.CreateTable?)
    ensures Execute(schema, s).Some? ==> Execute(Execute(schema, s).value, s) == Execute(schema, s)
    ensures Execute(schema, s) == if Done(schema, s) then Some(schema) else Answer(schema, s)
  {
  }

  /** A statement fails if and only if what it works on is missing; done, it has added what it names to that
      table, and changed nothing else. */
  lemma ExecuteIs(schema: Schema, s: Statement)
    ensures var r := Execute(schema, s);
      match s
      case Blank => r == Some(schema)
      case CreateTable(t, columns, indexes) =>
        r == Some(if t in schema then schema else schema[t := Table(columns, indexes)])
      case AddColumn(t, c) =>
        && (r == None <==> t !in schema)
        && (r.Some? ==> r.value == schema[t := Table(schema[t].columns + {c}, schema[t].indexes)])
      case CreateIndex(t, i, on) =>
        && (r == None <==> t !in schema || (i !in schema[t].indexes && !(on <= schema[t].columns)))
        && (r.Some? ==> r.value == schema[t := Table(schema[t].columns, schema[t].indexes + {i})])
  {
    match s {
      case AddColumn(t, c) =>
        if t in schema && c in schema[t].columns {
          assert schema[t].columns + {c} == schema[t].columns;
        }
      case CreateIndex(t, i, _) =>
        if t in schema && i in schema[t].indexes {
          assert schema[t].indexes + {i} == schema[t].indexes;
        }
      case _ =>
    }
  }

  lemma ExecuteDoes(schema: Schema, s: Statement)
    requires Execute(schema, s).Some?
    ensures Within(schema, Execute(schema, s).value) && Done(Execute(schema, s).value, s)
  {
  }

  lemma {:induction false} ExecuteFirstDoes(schema: Schema, statements: seq<Statement>, k: nat)
    requires k <= |statements| && ExecuteFirst(schema, statements, k).Some?
    ensures var reached := ExecuteFirst(schema, statements, k).value;
      Within(schema, reached) && forall i :: 0 <= i < k ==> Done(reached, statements[i])
  {
    if k > 0 {
      ExecuteFirstDoes(schema, statements, k - 1);
      ExecuteDoes(ExecuteFirst(schema, statements, k - 1).value, statements[k - 1]);
    }
  }

  /** Statements whose work is done change nothing, whatever else has been done meanwhile. */
  lemma {:induction false} DoneIsSkipped(schema: Schema, statements: seq<Statement>, k: nat)
    requires k <= |statements| && forall i :: 0 <= i < k ==> Done(schema, statements[i])
    ensures ExecuteFirst(schema, statements, k) == Some(schema)
  {
    if k > 0 {
      DoneIsSkipped(schema, statements, k - 1);
    }
  }

  /** Taking up the statements again after k of them comes to the same at every later point. */
  lemma {:induction false} StatementsResume(schema: Schema, statements: seq<Statement>, k: nat, n: nat)
    requires k <= n <= |statements| && ExecuteFirst(schema, statements, k).Some?
    ensures ExecuteFirst(ExecuteFirst(schema, statements, k).value, statements, n)
      == ExecuteFirst(schema, statements, n)
    ensures Furthest(ExecuteFirst(schema, statements, k).value, statements, n) == Furthest(schema, statements, n)
  {
    if n == k {
      ExecuteFirstDoes(schema, statements, k);
      DoneIsSkipped(ExecuteFirst(schema, statements, k).value, statements, k);
    } else {
      StatementsResume(schema, statements, k, n - 1);
    }
  }

  lemma {:induction false} FurthestIsReached(schema: Schema, statements: seq<Statement>, n: nat)
    requires n <= |statements|
    ensures exists k :: 0 <= k <= n && ExecuteFirst(schema, statements, k) == Some(Furthest(schema, statements, n))
  {
    if ExecuteFirst(schema, statements, n) == None {
      FurthestIsReached(schema, statements, n - 1);
    } else {
      assert ExecuteFirst(schema, statements, n) == Some(Furthest(schema, statements, n));
    }
  }

  lemma ChecksStayTrue(small: Schema, large: Schema, m: Migration)
    requires Within(small, large) && ChecksHold(small, m)
    ensures ChecksHold(large, m)
  {
    forall i | 0 <= i < |m.checks| ensures CheckHolds(large, m.checks[i]) {
      assert CheckHolds(small, m.checks[i]);
    }
  }

  predicate Grows(db: Db, later: Db) {
    Within(db.schema, later.schema) && db.recorded <= later.recorded
  }

  lemma ApplyGrows(db: Db, m: Migration)
    ensures Grows(db, Apply(db, m).db)
  {
    FurthestIsReached(db.schema, m.statements, |m.statements|);
    var k :| 0 <= k <= |m.statements|
      && ExecuteFirst(db.schema, m.statements, k) == Some(Furthest(db.schema, m.statements, |m.statements|));
    ExecuteFirstDoes(db.schema, m.statements, k);
  }

  lemma {:induction false} PassingGrows(db: Db, list: seq<Migration>, mid: Db)
    requires Passes(db, list, mid)
    ensures Grows(db, mid)
    decreases list
  {
    if mid != db {
      var m := list[0];
      ApplyGrows(db, m);
      if Defined(m) && PassesWithin(db, m, mid) {
        if mid != Apply(db, m).db {
          var k :| 0 <= k <= |m.statements| && ExecuteFirst(db.schema, m.statements, k) == Some(mid.schema);
          ExecuteFirstDoes(db.schema, m.statements, k);
        }
      } else {
        PassingGrows(RunOne(db, m).db, list[1..], mid);
      }
    }
  }

  // ---------------------------------------------------------------------------------------
  // Crashed runs leave no trace in the outcome.

  /** Dying within a migration: running it again comes to the same. */
  lemma MigrationResumes(db: Db, m: Migration, mid: Db)
    requires PassesWithin(db, m, mid)
    ensures Apply(db, m).outcome == Completed ==> Apply(mid, m) == Apply(db, m)
    ensures Apply(db, m).outcome == Failed ==> Apply(mid, m) == Apply(db, m)
  {
    var n := |m.statements|;
    if m.id !in db.recorded {
      FurthestIsReached(db.schema, m.statements, n);
      var k: nat :| k <= n
        && ((mid.recorded == db.recorded && ExecuteFirst(db.schema, m.statements, k) == Some(mid.schema))
        || (mid == Apply(db, m).db
          && ExecuteFirst(db.schema, m.statements, k) == Some(Furthest(db.schema, m.statements, n))));
      if mid.recorded == db.recorded {
        StatementsResume(db.schema, m.statements, k, n);
      }
    }
  }

  /** A run that starts where another died ends exactly as that one would have. */
  lemma {:induction false} RunResumes(db: Db, list: seq<Migration>, mid: Db)
    requires Passes(db, list, mid)
    ensures Run(mid, list) == Run(db, list)
    decreases list
  {
    if mid != db {
      var m := list[0];
      if Defined(m) && PassesWithin(db, m, mid) {
        MigrationResumes(db, m, mid);
      } else {
        var next := RunOne(db, m).db;
        PassingGrows(next, list[1..], mid);
        ChecksStayTrue(next.schema, mid.schema, m);
        assert m.id in next.recorded;
        assert RunOne(mid, m) == Ending(Completed, mid);
        RunResumes(next, list[1..], mid);
      }
    }
  }

  /** Each state is one in which a run from the state before it may have died. */
  predicate CrashedRuns(list: seq<Migration>, states: seq<Db>) {
    forall i :: 0 < i < |states| ==> Passes(states[i - 1], list, states[i])
  }

  /** However often and wherever runs have died, the run that then goes through ends as a single
      run without a crash: the same outcome, the same schema, the same history. */
  lemma {:induction false} CrashesDoNotMatter(list: seq<Migration>, states: seq<Db>)
    requires states != [] && CrashedRuns(list, states)
    ensures Run(states[|states| - 1], list) == Run(states[0], list)
  {
    var n := |states| - 1;
    if n > 0 {
      CrashesDoNotMatter(list, states[..n]);
      RunResumes(states[n - 1], list, states[n]);
    }
  }

  /** Around spaces the name is one of these. */
  predicate Present(name: string, present: set<string>) {
    Text.TrimSpace(name) != "" && Text.TrimSpace(name) in present
  }

  /** The table of the check is there, with each of its columns and each of its indexes. */
  predicate Verified(schema: Schema, c: Check) {
    && Present(c.table, schema.Keys)
    && (forall i :: 0 <= i < |c.columns| ==> Present(c.columns[i], schema[Text.TrimSpace(c.table)].columns))
    && (forall i :: 0 <= i < |c.indexes| ==> Present(c.indexes[i], schema[Text.TrimSpace(c.table)].indexes))
  }

  lemma CheckIs(schema: Schema, c: Check)
    ensures CheckHolds(schema, c) <==> Verified(schema, c)
  {
  }

  /** What the statement names is in the schema. */
  predicate Contains(schema: Schema, s: Statement) {
    match s
    case Blank => true
    case CreateTable(t, _, _) => t in schema
    case AddColumn(t, c) => t in schema && c in schema[t].columns
    case CreateIndex(t, i, _) => t in schema && i in schema[t].indexes
  }

  predicate NoDuplicates(ids: seq<string>) {
    forall i, j :: 0 <= i < j < |ids| ==> ids[i] != ids[j]
  }

  lemma ApplyRecordsOnce(db: Db, m: Migration)
    requires NoDuplicates(db.recorded)
    ensures NoDuplicates(Apply(db, m).db.recorded)
    ensures Apply(db, m).outcome == Completed ==> m.id in Apply(db, m).db.recorded
  {
  }

  /** A completed run has recorded each migration, none twice, and every check of every
      migration holds of the schema it leaves. */
  lemma {:induction false} CompletedRunIsComplete(db: Db, list: seq<Migration>)
    requires NoDuplicates(db.recorded) && Run(db, list).outcome == Completed
    ensures var final := Run(db, list).db;
      && Grows(db, final) && NoDuplicates(final.recorded)
      && (forall i :: 0 <= i < |list| ==> list[i].id in final.recorded && ChecksHold(final.schema, list[i]))
      && (forall i, j :: 0 <= i < |list| && 0 <= j < |list[i].checks| ==> Verified(final.schema, list[i].checks[j]))
      && (forall i :: 0 <= i < |list| ==> Text.TrimSpace(list[i].id) != "" && Text.TrimSpace(list[i].name) != "")
    decreases list
  {
    if list != [] {
      var next := RunOne(db, list[0]).db;
      ApplyRecordsOnce(db, list[0]);
      ApplyGrows(db, list[0]);
      CompletedRunIsComplete(next, list[1..]);
      var final := Run(db, list).db;
      ChecksStayTrue(next.schema, final.schema, list[0]);
      forall i | 0 <= i < |list|
        ensures list[i].id in final.recorded && ChecksHold(final.schema, list[i]) && Defined(list[i])
      {
        if i > 0 {
          assert list[i] == list[1..][i - 1];
        } else {
          assert list[0].id in next.recorded;
        }
      }
      forall i, j | 0 <= i < |list| && 0 <= j < |list[i].checks| ensures Verified(final.schema, list[i].checks[j]) {
        assert CheckHolds(final.schema, list[i].checks[j]);
        CheckIs(final.schema, list[i].checks[j]);
      }
    }
  }

  /** A recorded migration is not executed again. */
  lemma RecordedIsSkipped(db: Db, m: Migration)
    requires m.id in db.recorded
    ensures RunOne(db, m).db == db
  {
  }

  /** A completed run has brought into the schema what the statements of every migration name that was
      not recorded before, nor is in the list twice. */
  lemma {:induction false} CompletedRunDoesAll(db: Db, list: seq<Migration>, i: nat, j: nat)
    requires Run(db, list).outcome == Completed && i < |list| && j < |list[i].statements|
    requires list[i].id !in db.recorded && forall k :: 0 <= k < i ==> list[k].id != list[i].id
    ensures Contains(Run(db, list).db.schema, list[i].statements[j])
    decreases list
  {
    var next := RunOne(db, list[0]).db;
    if i == 0 {
      ExecuteFirstDoes(db.schema, list[0].statements, |list[0].statements|);
      assert Done(next.schema, list[0].statements[j]);
      RunGrows(next, list[1..]);
    } else {
      assert list[1..][i - 1] == list[i];
      assert forall k :: 0 <= k < i - 1 ==> list[1..][k] == list[k + 1];
      CompletedRunDoesAll(next, list[1..], i - 1, j);
    }
  }

  lemma {:induction false} RunGrows(db: Db, list: seq<Migration>)
    ensures Grows(db, Run(db, list).db)
    decreases list
  {
    if list != [] {
      ApplyGrows(db, list[0]);
      if RunOne(db, list[0]).outcome == Completed {
        RunGrows(RunOne(db, list[0]).db, list[1..]);
      }
    }
  }

  // ---------------------------------------------------------------------------------------
  // How many database operations a run takes at most.

  /** A statement with a guard takes the look and the execution. */
  function StatementOperations(s: Statement): nat {
    if s.AddColumn? || s.CreateIndex? then 2 else 1
  }

  function StatementsOperations(statements: seq<Statement>): nat {
    if statements == [] then 0
    else
      var first := if statements[0] == Blank then 0 else StatementOperations(statements[0]);
      first + StatementsOperations(statements[1..])
  }

  /** One look for the table and one for each column and index. */
  function ChecksOperations(checks: seq<Check>): nat {
    if checks == [] then 0 else 1 + |checks[0].columns| + |checks[0].indexes| + ChecksOperations(checks[1..])
  }

  /** The look whether the migration is recorded, its statements, its record, its checks. */
  function MigrationOperations(m: Migration): nat {
    1 + StatementsOperations(m.statements) + 1 + ChecksOperations(m.checks)
  }

  function Operations(list: seq<Migration>): nat
    decreases list
  {
    if list == [] then 0 else MigrationOperations(list[0]) + Operations(list[1..])
  }

  // ---------------------------------------------------------------------------------------
  // The runner.

  /** The database's reply to a statement; none if the process has died before it was executed. */
  datatype Reply = Accepted | Refused | NoReply

  class Runner {
    var schema: Schema
    var recorded: seq<string>
    /** How many more database operations the process lives for. */
    var lifetime: nat

    constructor (db: Db, lifetime: nat)
      ensures Now() == db && this.lifetime == lifetime
    {
      schema, recorded, this.lifetime := db.schema, db.recorded, lifetime;
    }

    function Now(): Db
      reads this
    {
      Db(schema, recorded)
    }

    /** A look at the database: the answer, or none if the process has died before it came. */
    method Look(answer: bool) returns (r: Option<bool>)
      modifies this`lifetime
      ensures r == if old(lifetime) > 0 then Some(answer) else None
      ensures lifetime == if old(lifetime) > 0 then old(lifetime) - 1 else 0
    {
      if lifetime == 0 {
        return None;
      }
      lifetime := lifetime - 1;
      return Some(answer);
    }

    method ColumnExists(table: string, column: string) returns (r: Option<bool>)
      modifies this`lifetime
      ensures r == if old(lifetime) > 0 then Some(table in schema && column in schema[table].columns) else None
      ensures lifetime == if old(lifetime) > 0 then old(lifetime) - 1 else 0
    {
      r := Look(table in schema && column in schema[table].columns);
    }

    method IndexExists(table: string, index: string) returns (r: Option<bool>)
      modifies this`lifetime
      ensures r == if old(lifetime) > 0 then Some(table in schema && index in schema[table].indexes) else None
      ensures lifetime == if old(lifetime) > 0 then old(lifetime) - 1 else 0
    {
      r := Look(table in schema && index in schema[table].indexes);
    }

    method Exec(s: Statement) returns (reply: Reply)
      modifies this`lifetime, this`schema
      ensures reply == NoReply <==> old(lifetime) == 0
      ensures reply == Accepted ==> Answer(old(schema), s) == Some(schema)
      ensures reply == Refused ==> Answer(old(schema), s) == None
      ensures reply != Accepted ==> schema == old(schema)
      ensures lifetime == if old(lifetime) > 0 then old(lifetime) - 1 else 0
    {
      if lifetime == 0 {
        return NoReply;
      }
      lifetime := lifetime - 1;
      var answer := Answer(schema, s);
      if answer == None {
        return Refused;
      }
      schema := answer.value;
      return Accepted;
    }

    /** The row of the history table. */
    method Record(id: string) returns (reply: Reply)
      modifies this`lifetime, this`recorded
      ensures reply == if old(lifetime) > 0 then Accepted else NoReply
      ensures recorded == if reply == Accepted then old(recorded) + [id] else old(recorded)
      ensures lifetime == if old(lifetime) > 0 then old(lifetime) - 1 else 0
    {
      if lifetime == 0 {
        return NoReply;
      }
      lifetime, recorded := lifetime - 1, recorded + [id];
      return Accepted;
    }

    /** Looks whether a column or an index is there before it has the database make it. */
    method ExecuteMigrationStatement(s: Statement) returns (outcome: Outcome)
      modifies this`lifetime, this`schema
      ensures outcome == Completed ==> Execute(old(schema), s) == Some(schema)
      ensures outcome == Failed ==> Execute(old(schema), s) == None && schema == old(schema)
      ensures outcome == Crashed ==> schema == old(schema)
      ensures old(lifetime) >= StatementOperations(s) ==>
        outcome != Crashed && lifetime >= old(lifetime) - StatementOperations(s)
    {
      if s.AddColumn? {
        var there := ColumnExists(s.table, s.column);
        if there == None {
          return Crashed;
        }
        if there.value {
          return Completed;
        }
      }
      if s.CreateIndex? {
        var there := IndexExists(s.table, s.index);
        if there == None {
          return Crashed;
        }
        if there.value {
          return Completed;
        }
      }
      var reply := Exec(s);
      match reply
      case NoReply => return Crashed;
      case Refused => return Failed;
      case Accepted => return Completed;
    }

    method RunMigration(m: Migration) returns (outcome: Outcome)
      requires Defined(m) && m.id !in recorded
      modifies this
      ensures outcome != Crashed ==> Ending(outcome, Now()) == Apply(old(Now()), m)
      ensures outcome == Crashed ==> PassesWithin(old(Now()), m, Now())
      ensures old(lifetime) >= StatementsOperations(m.statements) + 1 ==>
        outcome != Crashed && lifetime >= old(lifetime) - StatementsOperations(m.statements) - 1
    {
      ghost var enough := lifetime >= StatementsOperations(m.statements) + 1;
      assert ExecuteFirst(schema, m.statements, 0) == Some(schema);
      for k := 0 to |m.statements|
        invariant recorded == old(recorded)
        invariant ExecuteFirst(old(schema), m.statements, k) == Some(schema)
        invariant enough ==>
          lifetime >= old(lifetime) - StatementsOperations(m.statements) + StatementsOperations(m.statements[k..])
      {
        assert m.statements[k..][1..] == m.statements[k + 1..];
        if m.statements[k] != Blank {
          outcome := ExecuteMigrationStatement(m.statements[k]);
          if outcome == Failed {
            RefusedForGood(old(schema), m.statements, k, |m.statements|);
          }
          if outcome != Completed {
            return;
          }
        }
      }
      var reply := Record(m.id);
      return if reply == NoReply then Crashed else Completed;
    }

    method VerifyMigrationSchema(m: Migration) returns (outcome: Outcome)
      modifies this`lifetime
      ensures outcome == Completed ==>
        ChecksHold(schema, m) && forall i :: 0 <= i < |m.checks| ==> Verified(schema, m.checks[i])
      ensures outcome == Failed ==>
        !ChecksHold(schema, m) && exists i :: 0 <= i < |m.checks| && !Verified(schema, m.checks[i])
      ensures old(lifetime) >= ChecksOperations(m.checks) ==>
        outcome != Crashed && lifetime >= old(lifetime) - ChecksOperations(m.checks)
    {
      ghost var enough := lifetime >= ChecksOperations(m.checks);
      for i := 0 to |m.checks|
        invariant forall j :: 0 <= j < i ==> CheckHolds(schema, m.checks[j])
        invariant enough ==> lifetime >= old(lifetime) - ChecksOperations(m.checks) + ChecksOperations(m.checks[i..])
      {
        assert m.checks[i..][1..] == m.checks[i + 1..];
        var t := Text.TrimSpace(m.checks[i].table);
        if t == "" {
          return Failed;
        }
        var there := Look(t in schema);
        if there == None {
          return Crashed;
        }
        if !there.value {
          return Failed;
        }
        outcome := VerifyNames(m.checks[i].columns, schema[t].columns);
        if outcome != Completed {
          return;
        }
        outcome := VerifyNames(m.checks[i].indexes, schema[t].indexes);
        if outcome != Completed {
          return;
        }
      }
      return Completed;
    }

    method VerifyNames(names: seq<string>, present: set<string>) returns (outcome: Outcome)
      modifies this`lifetime
      ensures outcome != Crashed ==>
        (outcome == Completed <==>
          forall i :: 0 <= i < |names| ==> Text.TrimSpace(names[i]) != "" && Text.TrimSpace(names[i]) in present)
      ensures old(lifetime) >= |names| ==> outcome != Crashed && lifetime >= old(lifetime) - |names|
    {
      for i := 0 to |names|
        invariant forall j :: 0 <= j < i ==> Text.TrimSpace(names[j]) != "" && Text.TrimSpace(names[j]) in present
        invariant old(lifetime) >= |names| ==> lifetime >= old(lifetime) - i
      {
        if Text.TrimSpace(names[i]) == "" {
          return Failed;
        }
        var there := Look(Text.TrimSpace(names[i]) in present);
        if there == None {
          return Crashed;
        }
        if !there.value {
          return Failed;
        }
      }
      return Completed;
    }

    /** One run over the list: it ends as the specification says, or has died on the way there. A
        process that lives for the run's operations does not die. */
    method RunMigrations(list: seq<Migration>) returns (outcome: Outcome)
      modifies this
      ensures outcome != Crashed ==> Ending(outcome, Now()) == Run(old(Now()), list)
      ensures outcome == Crashed ==> Passes(old(Now()), list, Now())
      ensures old(lifetime) >= Operations(list) ==> outcome != Crashed
    {
      ghost var start := Now();
      ghost var enough := lifetime >= Operations(list);
      for i := 0 to |list|
        invariant Run(Now(), list[i..]) == Run(start, list)
        invariant forall mid :: Passes(Now(), list[i..], mid) ==> Passes(start, list, mid)
        invariant enough ==> lifetime >= Operations(list[i..])
      {
        assert list[i..][1..] == list[i + 1..];
        outcome := RunOneMigration(list[i]);
        if outcome != Completed {
          return;
        }
      }
      return Completed;
    }

    method RunOneMigration(m: Migration) returns (outcome: Outcome)
      modifies this
      ensures outcome != Crashed ==> Ending(outcome, Now()) == RunOne(old(Now()), m)
      ensures outcome == Crashed ==> Now() == old(Now()) || (Defined(m) && PassesWithin(old(Now()), m, Now()))
      ensures old(lifetime) >= MigrationOperations(m) ==>
        outcome != Crashed && lifetime >= old(lifetime) - MigrationOperations(m)
    {
      if !Defined(m) {
        return Failed;
      }
      var applied := Look(m.id in recorded);
      if applied == None {
        return Crashed;
      }
      if !applied.value {
        outcome := RunMigration(m);
        if outcome != Completed {
          return;
        }
      }
      outcome := VerifyMigrationSchema(m);
    }
  }

  /** Once the database has refused a statement, the later ones are not reached. */
  lemma {:induction false} RefusedForGood(schema: Schema, statements: seq<Statement>, k: nat, n: nat)
    requires k < n <= |statements| && ExecuteFirst(schema, statements, k).Some?
      && ExecuteFirst(schema, statements, k + 1) == None
    ensures ExecuteFirst(schema, statements, n) == None
    ensures Furthest(schema, statements, n) == ExecuteFirst(schema, statements, k).value
  {
    if n > k + 1 {
      RefusedForGood(schema, statements, k, n - 1);
    }
  }
}
