/** The transactions of the provider and model services, statement by statement. Before each
    statement the other transactions may have taken any steps, read off `others`. */
module CatalogService {
  import opened Catalog
  import opened Wrappers

  datatype Error = Validation | NotFound | DuplicateName | HasEnabledModels | HasLinkedModels | Conflict

  function TxOf(step: Step): Tx {
    step.tx
  }

  predicate SameTables(a: State, b: State) {
    a.providers == b.providers && a.models == b.models
  }

  /** What an operation demands of the tables, when nobody else is writing. */
  predicate Permitted(s: State, write: Write) {
    match write
    case InsertProvider(id, _) => id !in s.providers
    case UpdateProvider(id, enabled) => LiveProvider(s, id) && (enabled == Some(false) ==> HasNoEnabledModels(s, id))
    case DeleteProvider(id) => LiveProvider(s, id) && HasNoModels(s, id)
    case InsertModel(id, p, name, _) =>
      id !in s.models && LiveProvider(s, p) && s.providers[p].enabled && IsNameFree(s, p, name, None)
    case UpdateModel(id, input) =>
      LiveModel(s, id) &&
      (var target := Target(s.models[id], input);
       && (input.provider.Some? || input.enabled == Some(true) ==>
         LiveProvider(s, target) && s.providers[target].enabled)
       && (input.provider.Some? || input.name.Some? ==>
             LiveProvider(s, target) && IsNameFree(s, target, TargetName(s.models[id], input), Some(id))))
    case DeleteModel(id) => LiveModel(s, id)
  }

  /** Another transaction's step leaves this one's facts and locks. */
  lemma OthersKeepMine(s: State, step: Step, tx: Tx)
    requires TxOf(step) != tx
    ensures FactsOf(Apply(s, step), tx) == FactsOf(s, tx)
  {
  }

  lemma {:induction false} OthersRunKeepsMine(s: State, steps: seq<Step>, tx: Tx)
    requires forall i :: 0 <= i < |steps| ==> TxOf(steps[i]) != tx
    ensures FactsOf(Run(s, steps), tx) == FactsOf(s, tx)
    decreases steps
  {
    if steps != [] {
      OthersKeepMine(s, steps[0], tx);
      OthersRunKeepsMine(Apply(s, steps[0]), steps[1..], tx);
    }
  }

  /** Undisturbed, an operation succeeds exactly when it is permitted, and then does its write;
      otherwise it changes nothing. */
  predicate Outcome(before: State, write: Write, error: Option<Error>, after: State) {
    && (error == None <==> Permitted(before, write))
    && SameTables(after, if error == None then Written(before, write) else before)
  }

  // ---------------------------------------------------------------------------------------
  // The same in terms of the tables: which error is answered when, and which row becomes what.

  ghost predicate NameTaken(s: State, provider: Id, name: string, except: Option<Id>) {
    exists m ::
      && m in s.models && except != Some(m)
      && !s.models[m].deleted && s.models[m].provider == provider && s.models[m].name == name
  }

  predicate EnabledProvider(s: State, id: Id) {
    id in s.providers && s.providers[id] == Provider(true, false)
  }

  /** Of one model the provider, the name, and whether it is enabled are as given, or else as before. */
  function Changed(m: Model, provider: Option<Id>, name: Option<string>, enabled: Option<bool>): Model {
    m.(provider := if provider.Some? then provider.value else m.provider,
       name := if name.Some? then name.value else m.name,
       enabled := if enabled.Some? then enabled.value else m.enabled)
  }

  ghost function UpdateError(s: State, id: Id, input: Input): Option<Error> {
    if id !in s.models || s.models[id].deleted then Some(NotFound)
    else
      var m := Changed(s.models[id], input.provider, input.name, input.enabled);
      if (input.provider.Some? || input.enabled == Some(true)) && !EnabledProvider(s, m.provider) then Some(Validation)
      else if NameTaken(s, m.provider, m.name, Some(id)) then Some(DuplicateName)
      else None
  }

  ghost function CreateError(s: State, id: Id, provider: Id, name: string): Option<Error> {
    if !EnabledProvider(s, provider) then Some(Validation)
    else if NameTaken(s, provider, name, None) then Some(DuplicateName)
    else if id in s.models then Some(Conflict)
    else None
  }

  /** A provider cannot be disabled with enabled models, nor deleted with any that is not deleted. */
  ghost function ProviderError(s: State, id: Id, blocked: bool, error: Error): Option<Error> {
    if id !in s.providers || s.providers[id].deleted then Some(NotFound) else if blocked then Some(error) else None
  }

  ghost predicate HasEnabledModel(s: State, provider: Id) {
    exists m :: m in s.models && !s.models[m].deleted && s.models[m].enabled && s.models[m].provider == provider
  }

  ghost predicate HasModel(s: State, provider: Id) {
    exists m :: m in s.models && !s.models[m].deleted && s.models[m].provider == provider
  }

  /** On an error nothing changes, else just that model, or that provider. */
  predicate ModelBecomes(s: State, t: State, error: Option<Error>, id: Id, m: Model) {
    t.providers == s.providers && t.models == if error == None then s.models[id := m] else s.models
  }

  predicate ProviderBecomes(s: State, t: State, error: Option<Error>, id: Id, p: Provider) {
    t.models == s.models && t.providers == if error == None then s.providers[id := p] else s.providers
  }

  /** What an update that gives no name or provider keeps is its model's alone already. */
  lemma OwnNameIsFree(s: State, id: Id)
    requires Inv(s) && LiveModel(s, id)
    ensures !NameTaken(s, s.models[id].provider, s.models[id].name, Some(id))
    ensures LiveProvider(s, s.models[id].provider)
  {
    if m :| m in s.models && Some(id) != Some(m) && !s.models[m].deleted
            && s.models[m].provider == s.models[id].provider && s.models[m].name == s.models[id].name {
      assert SameName(s.models[m], s.models[id]);
    }
  }

  lemma PermittedIsNoError(s: State, id: Id, input: Input)
    requires Inv(s)
    ensures Permitted(s, Write.UpdateModel(id, input)) <==> UpdateError(s, id, input) == None
  {
    if LiveModel(s, id) {
      OwnNameIsFree(s, id);
    }
  }

  lemma ProviderReadIsLive(s: State, tx: Tx, id: Id, p: Provider)
    requires Inv(s) && ProviderRead(id, p) in FactsOf(s, tx)
    ensures LiveProvider(s, id) && s.providers[id] == p && Holds(s, ProviderRow(id), tx)
      && KnowsProvider(FactsOf(s, tx), id)
    ensures !p.deleted && (p.enabled ==> Usable(FactsOf(s, tx), id))
  {
    assert StillTrue(s, tx, ProviderRead(id, p));
    assert p.enabled ==> p == Provider(true, false);
  }

  lemma ModelReadIsLive(s: State, tx: Tx, id: Id, m: Model)
    requires Inv(s) && ModelRead(id, m) in FactsOf(s, tx)
    ensures LiveModel(s, id) && s.models[id] == m && Holds(s, ModelRow(id), tx)
  {
    assert StillTrue(s, tx, ModelRead(id, m));
  }

  class Service {
    const self: Tx
    var state: State
    var others: seq<seq<Step>>
    /** The writes committed so far by this service. */
    ghost var committed: seq<Write>

    ghost predicate Valid()
      reads this
    {
      Inv(state) && forall i, j :: 0 <= i < |others| && 0 <= j < |others[i]| ==> TxOf(others[i][j]) != self
    }

    /** Nobody else is at work. */
    predicate Alone()
      reads this
    {
      others == [] && forall row :: row in state.locks ==> state.locks[row] == self
    }

    function Facts(): set<Fact>
      reads this
    {
      FactsOf(state, self)
    }

    constructor (self: Tx, state: State, others: seq<seq<Step>>)
      requires Inv(state) && forall i, j :: 0 <= i < |others| && 0 <= j < |others[i]| ==> TxOf(others[i][j]) != self
      ensures Valid() && this.self == self && this.state == state && this.others == others && committed == []
    {
      this.self, this.state, this.others, committed := self, state, others, [];
    }

    method Interfere()
      requires Valid()
      modifies this`state, this`others
      ensures Valid() && Facts() == old(Facts())
      ensures old(Alone()) ==> Alone() && state == old(state)
      ensures old(others) != [] ==> state == Run(old(state), old(others)[0]) && others == old(others)[1..]
    {
      if others != [] {
        RunKeepsInv(state, others[0]);
        OthersRunKeepsMine(state, others[0], self);
        state := Run(state, others[0]);
        assert forall i, j :: 0 <= i < |others| - 1 && 0 <= j < |others[1..][i]| ==>
          others[1..][i][j] == others[i + 1][j];
        others := others[1..];
      }
    }

    /** One statement of this transaction that writes no table. */
    method Issue(step: Step) returns (done: bool)
      requires Valid() && TxOf(step) == self && !step.Commit? && !step.Rollback?
      modifies this`state, this`others
      ensures Valid() && old(Facts()) <= Facts()
      ensures done ==> exists before :: Enabled(before, step) && state == Apply(before, step)
      ensures old(Alone()) ==> Alone() && SameTables(state, old(state)) && (done <==> Enabled(old(state), step))
      ensures done && old(Alone()) ==> state == Apply(old(state), step)
    {
      Interfere();
      done := Enabled(state, step);
      StepKeepsInv(state, step);
      state := Apply(state, step);
    }

    method LockProviderRow(id: Id) returns (r: Option<Provider>)
      requires Valid()
      modifies this`state, this`others
      ensures Valid() && old(Facts()) <= Facts()
      ensures r.Some? ==> ProviderRead(id, r.value) in Facts()
      ensures old(Alone()) ==> Alone() && SameTables(state, old(state)) && (r.Some? <==> LiveProvider(old(state), id))
      ensures r.Some? && old(Alone()) ==> Holds(state, ProviderRow(id), self) && r.value == old(state).providers[id]
    {
      var done := Issue(LockProvider(self, id));
      r := None;
      if done {
        r := Some(state.providers[id]);
      }
    }

    method LockModelRow(id: Id) returns (r: Option<Model>)
      requires Valid()
      modifies this`state, this`others
      ensures Valid() && old(Facts()) <= Facts()
      ensures r.Some? ==> ModelRead(id, r.value) in Facts()
      ensures old(Alone()) ==> Alone() && SameTables(state, old(state)) && (r.Some? <==> LiveModel(old(state), id))
      ensures r.Some? && old(Alone()) ==> r.value == old(state).models[id]
    {
      var done := Issue(LockModel(self, id));
      r := None;
      if done {
        r := Some(state.models[id]);
      }
    }

    method EnsureUsable(id: Id) returns (usable: bool)
      requires Valid()
      modifies this`state, this`others
      ensures Valid() && old(Facts()) <= Facts()
      ensures usable ==> Usable(Facts(), id)
      ensures old(Alone()) ==>
        Alone() && SameTables(state, old(state))
          && (usable <==> LiveProvider(old(state), id) && old(state).providers[id].enabled)
    {
      var r := LockProviderRow(id);
      if r.Some? {
        ProviderReadIsLive(state, self, id, r.value);
      }
      usable := r.Some? && r.value.enabled;
    }

    /** The write, and the end of the transaction. */
    method CommitWrite(write: Write)
      requires Valid() && Cleared(state, self, write)
      modifies this`state, this`committed
      ensures Valid() && Facts() == {} && committed == old(committed) + [write]
      ensures SameTables(state, Written(old(state), write))
      ensures old(Alone()) ==> Alone()
    {
      StepKeepsInv(state, Commit(self, write));
      state := Apply(state, Commit(self, write));
      committed := committed + [write];
    }

    method Abort()
      requires Valid()
      modifies this`state
      ensures Valid() && Facts() == {} && SameTables(state, old(state))
      ensures old(Alone()) ==> Alone()
    {
      StepKeepsInv(state, Rollback(self));
      state := Apply(state, Rollback(self));
    }

    method CreateModel(id: Id, provider: Id, name: string, enabled: bool) returns (error: Option<Error>)
      requires Valid() && Facts() == {}
      modifies this
      ensures Valid() && Facts() == {}
      ensures committed == if error == None then old(committed) + [InsertModel(id, provider, name, enabled)]
        else old(committed)
      ensures error == None ==> id in state.models && state.models[id] == Model(provider, name, enabled, false)
      ensures error.Some? ==> error.value in {Validation, DuplicateName, Conflict}
      ensures old(Alone()) ==>
        && error == CreateError(old(state), id, provider, name)
        && ModelBecomes(old(state), state, error, id, Model(provider, name, enabled, false))
      ensures old(Alone()) ==> Alone() && Outcome(old(state), InsertModel(id, provider, name, enabled), error, state)
    {
      var usable := EnsureUsable(provider);
      if !usable {
        error := Some(Validation);
      } else {
        var free := Issue(CheckName(self, provider, name, None));
        error := if !free then Some(DuplicateName) else if id in state.models then Some(Conflict) else None;
      }
      if error.Some? {
        Abort();
      } else {
        CommitWrite(InsertModel(id, provider, name, enabled));
      }
    }

    /** An update needs an enabled provider if it gives one, or enables the model. */
    method EnsureProvider(current: Model, input: Input) returns (ok: bool)
      requires Valid()
      modifies this`state, this`others
      ensures Valid() && old(Facts()) <= Facts()
      ensures ok && (input.provider.Some? || input.enabled == Some(true)) ==> Usable(Facts(), Target(current, input))
      ensures old(Alone()) ==>
        && Alone() && SameTables(state, old(state))
        && (ok <==> (input.provider.Some? || input.enabled == Some(true) ==>
                       EnabledProvider(old(state), Target(current, input))))
    {
      ok := true;
      if input.provider.Some? {
        ok := EnsureUsable(input.provider.value);
      }
      if ok && input.enabled == Some(true) {
        ok := EnsureUsable(Target(current, input));
      }
    }

    /** The checks of an update that concern the provider the model will belong to. */
    method EnsureTarget(id: Id, current: Model, input: Input) returns (error: Option<Error>)
      requires Valid() && ModelRead(id, current) in Facts()
      modifies this`state, this`others
      ensures Valid() && ModelRead(id, current) in Facts()
      ensures error == None ==> Cleared(state, self, Write.UpdateModel(id, input))
      ensures error.Some? ==> error.value in {Validation, DuplicateName}
      ensures old(Alone()) ==>
        Alone() && SameTables(state, old(state))
          && (error == None <==> Permitted(old(state), Write.UpdateModel(id, input)))
      ensures old(Alone()) && id in old(state).models && old(state).models[id] == current ==>
        error == UpdateError(old(state), id, input)
    {
      var target, name := Target(current, input), TargetName(current, input);
      ModelReadIsLive(state, self, id, current);
      OwnNameIsFree(state, id);
      PermittedIsNoError(state, id, input);
      var ok := EnsureProvider(current, input);
      if !ok {
        return Some(Validation);
      }
      if input.provider.Some? || input.name.Some? {
        if input.provider.None? {
          var locked := LockProviderRow(target);
          if locked.None? {
            return Some(Validation);
          }
        }
        var free := Issue(CheckName(self, target, name, Some(id)));
        if !free {
          return Some(DuplicateName);
        }
      }
      ModelReadIsLive(state, self, id, current);
      return None;
    }

    method UpdateModel(id: Id, input: Input) returns (error: Option<Error>)
      requires Valid() && Facts() == {}
      modifies this
      ensures Valid() && Facts() == {}
      ensures committed == if error == None then old(committed) + [Write.UpdateModel(id, input)] else old(committed)
      ensures error == None ==>
        id in state.models && exists current: Model :: !current.deleted && state.models[id] == Updated(current, input)
      ensures error.Some? ==> error.value in {NotFound, Validation, DuplicateName}
      ensures error == None ==>
        && (input.provider.Some? ==> state.models[id].provider == input.provider.value)
        && (input.name.Some? ==> state.models[id].name == input.name.value)
        && (input.enabled.Some? ==> state.models[id].enabled == input.enabled.value)
        && !state.models[id].deleted
      ensures old(Alone()) ==> error == UpdateError(old(state), id, input)
      ensures old(Alone()) && id in old(state).models ==>
        ModelBecomes(old(state), state, error, id,
          Changed(old(state).models[id], input.provider, input.name, input.enabled))
      ensures old(Alone()) ==> Alone() && Outcome(old(state), Write.UpdateModel(id, input), error, state)
    {
      var current := LockModelRow(id);
      error := if current.None? then Some(NotFound) else None;
      if current.Some? {
        error := EnsureTarget(id, current.value, input);
        ModelReadIsLive(state, self, id, current.value);
      }
      if error.Some? {
        Abort();
      } else {
        CommitWrite(Write.UpdateModel(id, input));
      }
    }

    method SetModelStatus(id: Id, enabled: bool) returns (error: Option<Error>)
      requires Valid() && Facts() == {}
      modifies this
      ensures Valid() && Facts() == {}
      ensures committed == if error == None
        then old(committed) + [Write.UpdateModel(id, Input(None, None, Some(enabled)))] else old(committed)
      ensures error == None ==> id in state.models && state.models[id].enabled == enabled && !state.models[id].deleted
      ensures error.Some? ==> error.value in {NotFound, Validation}
      ensures old(Alone()) ==> error == UpdateError(old(state), id, Input(None, None, Some(enabled)))
      ensures old(Alone()) && id in old(state).models ==>
        ModelBecomes(old(state), state, error, id, old(state).models[id].(enabled := enabled))
      ensures old(Alone()) ==>
        Alone() && Outcome(old(state), Write.UpdateModel(id, Input(None, None, Some(enabled))), error, state)
    {
      var current := LockModelRow(id);
      error := if current.None? then Some(NotFound) else None;
      if current.Some? {
        ModelReadIsLive(state, self, id, current.value);
        if enabled {
          var usable := EnsureUsable(current.value.provider);
          error := if usable then None else Some(Validation);
          ModelReadIsLive(state, self, id, current.value);
        }
      }
      if error.Some? {
        Abort();
      } else {
        CommitWrite(Write.UpdateModel(id, Input(None, None, Some(enabled))));
      }
    }

    method DeleteModel(id: Id) returns (error: Option<Error>)
      requires Valid() && Facts() == {}
      modifies this
      ensures Valid() && Facts() == {}
      ensures committed == if error == None then old(committed) + [Write.DeleteModel(id)] else old(committed)
      ensures error == None ==> id in state.models && state.models[id].deleted
      ensures error.Some? ==> error.value == NotFound
      ensures old(Alone()) ==> (error == None <==> id in old(state).models && !old(state).models[id].deleted)
      ensures old(Alone()) && id in old(state).models ==>
        ModelBecomes(old(state), state, error, id, old(state).models[id].(deleted := true))
      ensures old(Alone()) ==> Alone() && Outcome(old(state), Write.DeleteModel(id), error, state)
    {
      var current := LockModelRow(id);
      if current.None? {
        Abort();
        return Some(NotFound);
      }
      ModelReadIsLive(state, self, id, current.value);
      CommitWrite(Write.DeleteModel(id));
      return None;
    }

    method CreateProvider(id: Id, enabled: bool) returns (error: Option<Error>)
      requires Valid() && Facts() == {}
      modifies this
      ensures Valid() && Facts() == {}
      ensures committed == if error == None then old(committed) + [InsertProvider(id, enabled)] else old(committed)
      ensures error == None ==> id in state.providers && state.providers[id] == Provider(enabled, false)
      ensures error.Some? ==> error.value == Conflict
      ensures old(Alone()) ==>
        && (error == None <==> id !in old(state).providers)
        && ProviderBecomes(old(state), state, error, id, Provider(enabled, false))
      ensures old(Alone()) ==> Alone() && Outcome(old(state), InsertProvider(id, enabled), error, state)
    {
      Interfere();
      if id in state.providers {
        Abort();
        return Some(Conflict);
      }
      CommitWrite(InsertProvider(id, enabled));
      return None;
    }

    /** An update of a provider; without a status it leaves what is modelled here as it is. Setting
        the status alone is this operation with nothing else given. */
    method UpdateProvider(id: Id, enabled: Option<bool>) returns (error: Option<Error>)
      requires Valid() && Facts() == {}
      modifies this
      ensures Valid() && Facts() == {}
      ensures committed == if error == None then old(committed) + [Write.UpdateProvider(id, enabled)]
        else old(committed)
      ensures error == None && enabled.Some? ==>
        id in state.providers && state.providers[id] == Provider(enabled.value, false)
      ensures error.Some? ==> error.value in {NotFound, HasEnabledModels}
      ensures old(Alone()) ==> error == ProviderError(old(state), id,
        enabled == Some(false) && HasEnabledModel(old(state), id), HasEnabledModels)
      ensures old(Alone()) && id in old(state).providers ==>
        ProviderBecomes(old(state), state, error, id,
          if enabled.Some? then Provider(enabled.value, false) else old(state).providers[id])
      ensures old(Alone()) ==> Alone() && Outcome(old(state), Write.UpdateProvider(id, enabled), error, state)
    {
      var current := LockProviderRow(id);
      error := if current.None? then Some(NotFound) else None;
      if current.Some? {
        ProviderReadIsLive(state, self, id, current.value);
        if enabled == Some(false) {
          var none := Issue(CheckNoEnabledModels(self, id));
          error := if none then None else Some(HasEnabledModels);
          ProviderReadIsLive(state, self, id, current.value);
        }
      }
      if error.Some? {
        Abort();
      } else {
        CommitWrite(Write.UpdateProvider(id, enabled));
      }
    }

    method DeleteProvider(id: Id) returns (error: Option<Error>)
      requires Valid() && Facts() == {}
      modifies this
      ensures Valid() && Facts() == {}
      ensures committed == if error == None then old(committed) + [Write.DeleteProvider(id)] else old(committed)
      ensures error == None ==> id in state.providers && state.providers[id].deleted
      ensures error.Some? ==> error.value in {NotFound, HasLinkedModels}
      ensures old(Alone()) ==> error == ProviderError(old(state), id, HasModel(old(state), id), HasLinkedModels)
      ensures old(Alone()) && id in old(state).providers ==>
        ProviderBecomes(old(state), state, error, id, old(state).providers[id].(deleted := true))
      ensures old(Alone()) ==> Alone() && Outcome(old(state), Write.DeleteProvider(id), error, state)
    {
      var current := LockProviderRow(id);
      error := if current.None? then Some(NotFound) else None;
      if current.Some? {
        ProviderReadIsLive(state, self, id, current.value);
        var none := Issue(CheckNoModels(self, id));
        error := if none then None else Some(HasLinkedModels);
        ProviderReadIsLive(state, self, id, current.value);
      }
      if error.Some? {
        Abort();
      } else {
        CommitWrite(Write.DeleteProvider(id));
      }
    }
  }
}
