/** Providers and their models under concurrent transactions. A transaction locks rows, checks
    what it must under those locks, and then commits one write; between any two of its steps the
    other transactions may do anything their locks allow. Names and ids are cleaned strings of
    one tenant. */
module Catalog {
  import opened Wrappers

  type Id = string

  datatype Provider = Provider(enabled: bool, deleted: bool)

  datatype Model = Model(provider: Id, name: string, enabled: bool, deleted: bool)

  datatype Row = ProviderRow(id: Id) | ModelRow(id: Id)

  /** What a transaction has found out under its locks. */
  datatype Fact =
    | ProviderRead(id: Id, provider: Provider)
    | ModelRead(id: Id, model: Model)
    | NameFree(owner: Id, name: string, except: Option<Id>)
    | NoModels(owner: Id)
    | NoEnabledModels(owner: Id)

  /** The fields of an update request that matter here; none leaves the field as it is. */
  datatype Input = Input(provider: Option<Id>, name: Option<string>, enabled: Option<bool>)

  datatype Write =
    | InsertProvider(id: Id, enabled: bool)
    | UpdateProvider(id: Id, status: Option<bool>)
    | DeleteProvider(id: Id)
    | InsertModel(id: Id, provider: Id, name: string, enabled: bool)
    | UpdateModel(id: Id, input: Input)
    | DeleteModel(id: Id)

  type Tx = nat

  datatype Step =
    | LockProvider(tx: Tx, id: Id)
    | LockModel(tx: Tx, id: Id)
    | CheckName(tx: Tx, id: Id, name: string, except: Option<Id>)
    | CheckNoModels(tx: Tx, id: Id)
    | CheckNoEnabledModels(tx: Tx, id: Id)
    | Commit(tx: Tx, write: Write)
    | Rollback(tx: Tx)

  datatype State = State(
    providers: map<Id, Provider>, models: map<Id, Model>, locks: map<Row, Tx>, facts: map<Tx, set<Fact>>)

  function FactsOf(s: State, tx: Tx): set<Fact> {
    if tx in s.facts then s.facts[tx] else {}
  }

  predicate Holds(s: State, row: Row, tx: Tx) {
    row in s.locks && s.locks[row] == tx
  }

  predicate Free(s: State, row: Row, tx: Tx) {
    row !in s.locks || s.locks[row] == tx
  }

  predicate LiveProvider(s: State, id: Id) {
    id in s.providers && !s.providers[id].deleted
  }

  predicate LiveModel(s: State, id: Id) {
    id in s.models && !s.models[id].deleted
  }

  predicate IsNameFree(s: State, provider: Id, name: string, except: Option<Id>) {
    forall m ::
      m in s.models && !s.models[m].deleted && s.models[m].provider == provider && s.models[m].name == name
      ==> except == Some(m)
  }

  predicate HasNoModels(s: State, provider: Id) {
    forall m :: m in s.models && !s.models[m].deleted ==> s.models[m].provider != provider
  }

  predicate HasNoEnabledModels(s: State, provider: Id) {
    forall m :: m in s.models && !s.models[m].deleted && s.models[m].enabled ==> s.models[m].provider != provider
  }

  // ---------------------------------------------------------------------------------------
  // What each operation has made sure of when it writes.

  predicate Usable(facts: set<Fact>, provider: Id) {
    ProviderRead(provider, Provider(true, false)) in facts
  }

  predicate KnowsProvider(facts: set<Fact>, id: Id) {
    exists f :: f in facts && f.ProviderRead? && f.id == id
  }

  function Target(m: Model, input: Input): Id {
    if input.provider.Some? then input.provider.value else m.provider
  }

  function TargetName(m: Model, input: Input): string {
    if input.name.Some? then input.name.value else m.name
  }

  function Updated(m: Model, input: Input): Model {
    Model(Target(m, input), TargetName(m, input), if input.enabled.Some? then input.enabled.value else m.enabled,
      m.deleted)
  }

  predicate Cleared(s: State, tx: Tx, write: Write) {
    var facts := FactsOf(s, tx);
    match write
    case InsertProvider(id, _) => id !in s.providers
    case UpdateProvider(id, enabled) =>
      KnowsProvider(facts, id) && (enabled == Some(false) ==> NoEnabledModels(id) in facts)
    case DeleteProvider(id) => KnowsProvider(facts, id) && NoModels(id) in facts
    case InsertModel(id, p, name, _) => id !in s.models && Usable(facts, p) && NameFree(p, name, None) in facts
    case UpdateModel(id, input) =>
      id in s.models && ModelRead(id, s.models[id]) in facts &&
      (var target := Target(s.models[id], input);
       && (input.provider.Some? || input.enabled == Some(true) ==> Usable(facts, target))
       && (input.provider.Some? || input.name.Some? ==>
             KnowsProvider(facts, target) && NameFree(target, TargetName(s.models[id], input), Some(id)) in facts))
    case DeleteModel(id) => id in s.models && ModelRead(id, s.models[id]) in facts
  }

  function Written(s: State, write: Write): State {
    match write
    case InsertProvider(id, enabled) => s.(providers := s.providers[id := Provider(enabled, false)])
    case UpdateProvider(id, enabled) =>
      if id !in s.providers || enabled == None then s
      else s.(providers := s.providers[id := s.providers[id].(enabled := enabled.value)])
    case DeleteProvider(id) =>
      if id !in s.providers then s else s.(providers := s.providers[id := s.providers[id].(deleted := true)])
    case InsertModel(id, p, name, enabled) => s.(models := s.models[id := Model(p, name, enabled, false)])
    case UpdateModel(id, input) =>
      if id !in s.models then s else s.(models := s.models[id := Updated(s.models[id], input)])
    case DeleteModel(id) => if id !in s.models then s else s.(models := s.models[id := s.models[id].(deleted := true)])
  }

  // ---------------------------------------------------------------------------------------
  // Steps.

  predicate Enabled(s: State, step: Step) {
    match step
    case LockProvider(tx, id) => LiveProvider(s, id) && Free(s, ProviderRow(id), tx)
    case LockModel(tx, id) => LiveModel(s, id) && Free(s, ModelRow(id), tx)
    case CheckName(tx, id, name, except) => Holds(s, ProviderRow(id), tx) && IsNameFree(s, id, name, except)
    case CheckNoModels(tx, id) => Holds(s, ProviderRow(id), tx) && HasNoModels(s, id)
    case CheckNoEnabledModels(tx, id) => Holds(s, ProviderRow(id), tx) && HasNoEnabledModels(s, id)
    case Commit(tx, write) => Cleared(s, tx, write)
    case Rollback(_) => true
  }

  function Learn(s: State, tx: Tx, fact: Fact): State {
    s.(facts := s.facts[tx := FactsOf(s, tx) + {fact}])
  }

  /** The transaction is over: its locks are released. */
  function End(s: State, tx: Tx): State {
    s.(locks := map row | row in s.locks && s.locks[row] != tx :: s.locks[row], facts := s.facts - {tx})
  }

  function Apply(s: State, step: Step): State {
    if !Enabled(s, step) then s else
      match step
      case LockProvider(tx, id) =>
        Learn(s.(locks := s.locks[ProviderRow(id) := tx]), tx, ProviderRead(id, s.providers[id]))
      case LockModel(tx, id) => Learn(s.(locks := s.locks[ModelRow(id) := tx]), tx, ModelRead(id, s.models[id]))
      case CheckName(tx, id, name, except) => Learn(s, tx, NameFree(id, name, except))
      case CheckNoModels(tx, id) => Learn(s, tx, NoModels(id))
      case CheckNoEnabledModels(tx, id) => Learn(s, tx, NoEnabledModels(id))
      case Commit(tx, write) => End(Written(s, write), tx)
      case Rollback(tx) => End(s, tx)
  }

  function Run(s: State, steps: seq<Step>): State
    decreases steps
  {
    if steps == [] then s else Run(Apply(s, steps[0]), steps[1..])
  }

  /** A run takes its steps one after the other. */
  lemma {:induction false} RunTakesSteps(s: State, steps: seq<Step>, step: Step)
    ensures Run(s, []) == s && Run(s, steps + [step]) == Apply(Run(s, steps), step)
    decreases steps
  {
    if steps == [] {
      assert [] + [step] == [step] && [step][1..] == [];
    } else {
      assert (steps + [step])[1..] == steps[1..] + [step];
      RunTakesSteps(Apply(s, steps[0]), steps[1..], step);
    }
  }

  // ---------------------------------------------------------------------------------------
  // The invariant.

  /** An undeleted model belongs to an undeleted provider, an enabled one to an enabled provider. */
  predicate Referenced(s: State) {
    forall m :: m in s.models && !s.models[m].deleted ==>
      LiveProvider(s, s.models[m].provider) && (s.models[m].enabled ==> s.providers[s.models[m].provider].enabled)
  }

  predicate SameName(a: Model, b: Model) {
    !a.deleted && !b.deleted && a.provider == b.provider && a.name == b.name
  }

  /** No two undeleted models of a provider share a name. */
  predicate NamesUnique(s: State) {
    forall m, n :: m in s.models && n in s.models && SameName(s.models[m], s.models[n]) ==> m == n
  }

  /** A fact learnt under a lock is still true. */
  predicate StillTrue(s: State, tx: Tx, fact: Fact) {
    match fact
    case ProviderRead(id, p) => Holds(s, ProviderRow(id), tx) && id in s.providers && s.providers[id] == p && !p.deleted
    case ModelRead(id, m) => Holds(s, ModelRow(id), tx) && id in s.models && s.models[id] == m && !m.deleted
    case NameFree(id, name, except) => Holds(s, ProviderRow(id), tx) && IsNameFree(s, id, name, except)
    case NoModels(id) => Holds(s, ProviderRow(id), tx) && HasNoModels(s, id)
    case NoEnabledModels(id) => Holds(s, ProviderRow(id), tx) && HasNoEnabledModels(s, id)
  }

  ghost predicate FactsHold(s: State) {
    forall tx, fact :: fact in FactsOf(s, tx) ==> StillTrue(s, tx, fact)
  }

  ghost predicate Inv(s: State) {
    Referenced(s) && NamesUnique(s) && FactsHold(s)
  }

  /** The rows a write touches are the transaction's own, or new; so whatever another
      transaction knows about rows it has locked stays true. */
  lemma WriteKeepsOthersFacts(s: State, tx: Tx, write: Write, other: Tx, fact: Fact)
    requires Inv(s) && Cleared(s, tx, write) && other != tx && fact in FactsOf(s, other)
    ensures StillTrue(Written(s, write), other, fact)
  {
    assert StillTrue(s, other, fact);
    match write {
      case InsertProvider(_, _) =>
      case UpdateProvider(id, _) =>
        var f :| f in FactsOf(s, tx) && f.ProviderRead? && f.id == id;
        assert StillTrue(s, tx, f);
      case DeleteProvider(id) =>
        var f :| f in FactsOf(s, tx) && f.ProviderRead? && f.id == id;
        assert StillTrue(s, tx, f);
      case InsertModel(_, p, _, _) =>
        assert StillTrue(s, tx, ProviderRead(p, Provider(true, false)));
      case UpdateModel(id, input) => UpdateKeepsOthersFacts(s, tx, id, input, other, fact);
      case DeleteModel(id) =>
        assert StillTrue(s, tx, ModelRead(id, s.models[id]));
    }
  }

  lemma UpdateKeepsOthersFacts(s: State, tx: Tx, id: Id, input: Input, other: Tx, fact: Fact)
    requires Inv(s) && Cleared(s, tx, UpdateModel(id, input)) && other != tx && fact in FactsOf(s, other)
    ensures StillTrue(Written(s, UpdateModel(id, input)), other, fact)
  {
    assert StillTrue(s, other, fact);
    assert StillTrue(s, tx, ModelRead(id, s.models[id]));
    var target := Target(s.models[id], input);
    if input.provider.Some? || input.enabled == Some(true) {
      assert StillTrue(s, tx, ProviderRead(target, Provider(true, false)));
    } else if input.name.Some? {
      var f :| f in FactsOf(s, tx) && f.ProviderRead? && f.id == target;
      assert StillTrue(s, tx, f);
    }
  }

  /** A write keeps references and names right, by what its transaction has checked. */
  lemma WriteKeepsTables(s: State, tx: Tx, write: Write)
    requires Inv(s) && Cleared(s, tx, write)
    ensures Referenced(Written(s, write)) && NamesUnique(Written(s, write))
  {
    match write {
      case InsertProvider(_, _) =>
      case UpdateProvider(id, enabled) =>
        if enabled == Some(false) {
          assert StillTrue(s, tx, NoEnabledModels(id));
        }
      case DeleteProvider(id) =>
        assert StillTrue(s, tx, NoModels(id));
      case InsertModel(_, p, name, _) =>
        assert StillTrue(s, tx, ProviderRead(p, Provider(true, false)));
        assert StillTrue(s, tx, NameFree(p, name, None));
      case UpdateModel(id, input) => UpdateKeepsTables(s, tx, id, input);
      case DeleteModel(_) =>
    }
  }

  lemma UpdateKeepsTables(s: State, tx: Tx, id: Id, input: Input)
    requires Inv(s) && Cleared(s, tx, UpdateModel(id, input))
    ensures Referenced(Written(s, UpdateModel(id, input))) && NamesUnique(Written(s, UpdateModel(id, input)))
  {
    assert StillTrue(s, tx, ModelRead(id, s.models[id]));
    var target, name := Target(s.models[id], input), TargetName(s.models[id], input);
    if input.provider.Some? || input.enabled == Some(true) {
      assert StillTrue(s, tx, ProviderRead(target, Provider(true, false)));
    }
    if input.provider.Some? || input.name.Some? {
      assert StillTrue(s, tx, NameFree(target, name, Some(id)));
    }
  }

  lemma StepKeepsInv(s: State, step: Step)
    requires Inv(s)
    ensures Inv(Apply(s, step))
  {
    if Enabled(s, step) {
      var v := Apply(s, step);
      if step.Commit? {
        WriteKeepsTables(s, step.tx, step.write);
      }
      forall tx, fact | fact in FactsOf(v, tx) ensures StillTrue(v, tx, fact) {
        if step.Commit? {
          WriteKeepsOthersFacts(s, step.tx, step.write, tx, fact);
        } else if fact in FactsOf(s, tx) {
          assert StillTrue(s, tx, fact);
        }
      }
    }
  }

  lemma {:induction false} RunKeepsInv(s: State, steps: seq<Step>)
    requires Inv(s)
    ensures Inv(Run(s, steps))
    decreases steps
  {
    if steps != [] {
      StepKeepsInv(s, steps[0]);
      RunKeepsInv(Apply(s, steps[0]), steps[1..]);
    }
  }

  const EMPTY := State(map[], map[], map[], map[])

  /** After any interleaving of transactions: an enabled undeleted model has an enabled undeleted
      provider, no undeleted model has a deleted one, and undeleted names are unique per provider. */
  lemma {:induction false} CatalogStaysConsistent(steps: seq<Step>)
    ensures Referenced(Run(EMPTY, steps)) && NamesUnique(Run(EMPTY, steps))
  {
    RunKeepsInv(EMPTY, steps);
  }
}
