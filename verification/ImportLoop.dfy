/** The import of module entities in repeated passes inside one transaction (transfer/transfer_import.go).
    Setting an entity can fail because another one is not there yet; it is rolled back to a savepoint,
    skipped, and tried again on the next pass. */
module ImportLoop {
  import opened DataRequest

  // ---- what is imported, in the order of one pass

  datatype Entity = Entity(id: Id, preset: bool, isProtected: bool)

  datatype Attribute = Attribute(id: Id, isPk: bool)

  datatype Preset = Preset(id: Id, isProtected: bool)

  datatype Relation = Relation(id: Id, attributes: seq<Attribute>, indexes: seq<Id>, presets: seq<Preset>)

  datatype Module = Module(
    id: Id, articles: seq<Id>, icons: seq<Id>, relations: seq<Relation>, collections: seq<Id>, apis: seq<Id>,
    widgets: seq<Id>, pgFunctions: seq<Id>, pgTriggers: seq<Id>, forms: seq<Id>, loginForms: seq<Id>,
    roles: seq<Id>, jsFunctions: seq<Id>, clientEvents: seq<Id>)

  function Plain(ids: seq<Id>): seq<Entity> {
    seq(|ids|, i requires 0 <= i < |ids| => Entity(ids[i], false, false))
  }

  function AttributesOf(attributes: seq<Attribute>, pk: bool): seq<Id> {
    if attributes == [] then []
    else (if attributes[0].isPk == pk then [attributes[0].id] else []) + AttributesOf(attributes[1..], pk)
  }

  function AllAttributes(relations: seq<Relation>, pk: bool): seq<Id> {
    if relations == [] then [] else AttributesOf(relations[0].attributes, pk) + AllAttributes(relations[1..], pk)
  }

  function AllIndexes(relations: seq<Relation>): seq<Id> {
    if relations == [] then [] else relations[0].indexes + AllIndexes(relations[1..])
  }

  function AllPresets(relations: seq<Relation>): seq<Entity> {
    if relations == [] then []
    else
      var ps := relations[0].presets;
      seq(|ps|, i requires 0 <= i < |ps| => Entity(ps[i].id, true, ps[i].isProtected)) + AllPresets(relations[1..])
  }

  function RelationIds(relations: seq<Relation>): seq<Id> {
    seq(|relations|, i requires 0 <= i < |relations| => relations[i].id)
  }

  // primary keys come before all other attributes, presets come last
  function EntitiesOf(m: Module): seq<Entity> {
    Plain([m.id] + m.articles + m.icons + RelationIds(m.relations) + AllAttributes(m.relations, true) +
          AllAttributes(m.relations, false) + m.collections + m.apis + m.widgets + m.pgFunctions + m.pgTriggers +
          AllIndexes(m.relations) + m.forms + m.loginForms + m.roles + m.jsFunctions + m.clientEvents) +
    AllPresets(m.relations)
  }

  function EntityLists(modules: seq<Module>): seq<seq<Entity>> {
    seq(|modules|, i requires 0 <= i < |modules| => EntitiesOf(modules[i]))
  }

  function Flatten(lists: seq<seq<Entity>>): seq<Entity> {
    if lists == [] then [] else Flatten(lists[..|lists| - 1]) + lists[|lists| - 1]
  }

  function AllEntities(modules: seq<Module>): seq<Entity> {
    Flatten(EntityLists(modules))
  }

  // ---- the transaction

  // Setting an entity in a state: whether it succeeds, and the state it leaves. What a failed attempt
  // leaves can be anything.
  type Setter<!S> = (S, Id) -> (bool, S)

  // A database transaction. All savepoints carry the same name, so that releasing and rolling back
  // concern the newest; a rollback keeps its savepoint.
  class Transaction<S> {
    var state: S
    var savepoints: seq<S>

    constructor (state: S)
      ensures this.state == state && savepoints == []
    {
      this.state, savepoints := state, [];
    }

    method Savepoint()
      modifies this
      ensures state == old(state) && savepoints == old(savepoints) + [old(state)]
    {
      savepoints := savepoints + [state];
    }

    method Release()
      requires savepoints != []
      modifies this
      ensures state == old(state) && savepoints == old(savepoints)[..|old(savepoints)| - 1]
    {
      savepoints := savepoints[..|savepoints| - 1];
    }

    method RollbackToSavepoint()
      requires savepoints != []
      modifies this
      ensures state == old(savepoints)[|old(savepoints)| - 1] && savepoints == old(savepoints)
    {
      state := savepoints[|savepoints| - 1];
    }

    method Write(s: S)
      modifies this
      ensures state == s && savepoints == old(savepoints)
    {
      state := s;
    }
  }

  // ---- one pass

  datatype Attempt = Attempt(id: Id, ok: bool)

  // transaction state, skipped entities and all attempts so far
  datatype Progress<S> = Progress(state: S, skipped: set<Id>, attempts: seq<Attempt>)

  predicate Optional(e: Entity) {
    e.preset && !e.isProtected
  }

  function ImportEntity<S>(set_: Setter<S>, p: Progress<S>, e: Entity, firstRun: bool, lastRun: bool): Progress<S> {
    if !firstRun && e.id !in p.skipped then p
    else if lastRun && Optional(e) then
      Progress(p.state, p.skipped - {e.id}, p.attempts + [Attempt(e.id, true)])
    else
      var (ok, after) := set_(p.state, e.id);
      if ok then Progress(after, p.skipped - {e.id}, p.attempts + [Attempt(e.id, true)])
      else Progress(p.state, p.skipped + {e.id}, p.attempts + [Attempt(e.id, false)])
  }

  function Pass<S>(set_: Setter<S>, p: Progress<S>, es: seq<Entity>, firstRun: bool, lastRun: bool): Progress<S> {
    if es == [] then p
    else
      var n := |es| - 1;
      ImportEntity(set_, Pass(set_, p, es[..n], firstRun, lastRun), es[n], firstRun, lastRun)
  }

  const LOOPS_TO_RUN := 10

  // after n passes
  function Passes<S>(set_: Setter<S>, start: S, es: seq<Entity>, n: nat): Progress<S> {
    if n == 0 then Progress(start, {}, [])
    else Pass(set_, Passes(set_, start, es, n - 1), es, n == 1, n == LOOPS_TO_RUN)
  }

  lemma {:induction false} PassTogether<S>(
      set_: Setter<S>, p: Progress<S>, a: seq<Entity>, b: seq<Entity>, firstRun: bool, lastRun: bool)
    ensures Pass(set_, p, a + b, firstRun, lastRun)
         == Pass(set_, Pass(set_, p, a, firstRun, lastRun), b, firstRun, lastRun)
  {
    if b == [] {
      assert a + b == a;
    } else {
      var n := |b| - 1;
      var all := a + b;
      assert all[..|all| - 1] == a + b[..n];
      PassTogether(set_, p, a, b[..n], firstRun, lastRun);
    }
  }

  // ---- the import as the program runs it

  class Import<S> {
    const tx: Transaction<S>
    const set_: Setter<S>
    var idMapSkipped: set<Id>
    ghost var attempts: seq<Attempt>

    constructor (start: S, set_: Setter<S>)
      ensures fresh(tx) && tx.state == start && this.set_ == set_ && idMapSkipped == {} && attempts == []
    {
      tx := new Transaction(start);
      this.set_ := set_;
      idMapSkipped, attempts := {}, [];
    }

    ghost function Now(): Progress<S>
      reads this, tx
    {
      Progress(tx.state, idMapSkipped, attempts)
    }

    method CheckRunAndSave(firstRun: bool, id: Id) returns (run: bool)
      modifies tx
      ensures run == (firstRun || id in idMapSkipped)
      ensures tx.state == old(tx.state)
      ensures tx.savepoints == old(tx.savepoints) + (if run then [old(tx.state)] else [])
    {
      run := firstRun || id in idMapSkipped;
      if run {
        tx.Savepoint();
      }
    }

    // The state a failed attempt leaves is replaced by that of the newest savepoint.
    method CheckResultAndApply(ok: bool, id: Id)
      requires tx.savepoints != []
      modifies this, tx
      ensures var n := |old(tx.savepoints)| - 1;
              if ok then tx.state == old(tx.state) && tx.savepoints == old(tx.savepoints)[..n]
              else tx.state == old(tx.savepoints)[n] && tx.savepoints == old(tx.savepoints)
      ensures idMapSkipped == if ok then old(idMapSkipped) - {id} else old(idMapSkipped) + {id}
      ensures attempts == old(attempts) + [Attempt(id, ok)]
    {
      attempts := attempts + [Attempt(id, ok)];
      if ok {
        tx.Release();
        idMapSkipped := idMapSkipped - {id};
      } else {
        tx.RollbackToSavepoint();
        idMapSkipped := idMapSkipped + {id};
      }
    }

    // Savepoints of failed attempts stay on the stack; they never change what later attempts go back to.
    method ImportEntities(es: seq<Entity>, firstRun: bool, lastRun: bool)
      modifies this, tx
      ensures Now() == Pass(set_, old(Now()), es, firstRun, lastRun)
      ensures old(tx.savepoints) <= tx.savepoints
    {
      for i := 0 to |es|
        invariant Now() == Pass(set_, old(Now()), es[..i], firstRun, lastRun)
        invariant old(tx.savepoints) <= tx.savepoints
      {
        var e := es[i];
        assert es[..i + 1][..i] == es[..i] && es[..i + 1][i] == e;
        var run := CheckRunAndSave(firstRun, e.id);
        if !run {
          continue;
        }
        if lastRun && Optional(e) {
          CheckResultAndApply(true, e.id);
          continue;
        }
        var result := set_(tx.state, e.id);
        tx.Write(result.1);
        CheckResultAndApply(result.0, e.id);
      }
      assert es[..|es|] == es;
    }

    // module after module
    method ImportPass(lists: seq<seq<Entity>>, firstRun: bool, lastRun: bool)
      modifies this, tx
      ensures Now() == Pass(set_, old(Now()), Flatten(lists), firstRun, lastRun)
    {
      for k := 0 to |lists|
        invariant Now() == Pass(set_, old(Now()), Flatten(lists[..k]), firstRun, lastRun)
      {
        ImportEntities(lists[k], firstRun, lastRun);
        PassTogether(set_, old(Now()), Flatten(lists[..k]), lists[k], firstRun, lastRun);
        assert lists[..k + 1][..k] == lists[..k];
      }
      assert lists[..|lists|] == lists;
    }
  }

  datatype Outcome<+S> = Abort | Commit(state: S)

  method ImportModules<S>(start: S, set_: Setter<S>, modules: seq<Module>) returns (r: Outcome<S>, passes: nat)
    ensures 1 <= passes <= LOOPS_TO_RUN
    ensures forall n :: 1 <= n < passes ==> Passes(set_, start, AllEntities(modules), n).skipped != {}
    ensures var end := Passes(set_, start, AllEntities(modules), passes);
            if end.skipped == {} then r == Commit(end.state) else r == Abort && passes == LOOPS_TO_RUN
  {
    var run := new Import(start, set_);
    ghost var es := AllEntities(modules);
    var loopsRan := 0;
    while true
      invariant loopsRan <= LOOPS_TO_RUN
      invariant run.Now() == Passes(set_, start, es, loopsRan)
      invariant run.set_ == set_ && fresh(run) && fresh(run.tx)
      invariant forall n :: 1 <= n < loopsRan ==> Passes(set_, start, es, n).skipped != {}
      decreases LOOPS_TO_RUN - loopsRan
    {
      var firstRun := loopsRan == 0;
      var lastRun := loopsRan == LOOPS_TO_RUN - 1;
      if !firstRun {
        if run.idMapSkipped == {} {
          break;
        }
        if loopsRan == LOOPS_TO_RUN {
          return Abort, loopsRan;
        }
      }
      run.ImportPass(EntityLists(modules), firstRun, lastRun);
      loopsRan := loopsRan + 1;
    }
    return Commit(run.tx.state), loopsRan;
  }
}
