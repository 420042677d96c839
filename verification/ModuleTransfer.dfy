/** The order of module imports, the changed-module check and the export list: three depth-first
    walks over module dependencies (transfer/transfer_import.go, transfer.go, transfer_export.go). */
module ModuleTransfer {
  import opened DataRequest
  import opened Wrappers
  import opened ModuleGraph

  // ---- import order

  // a dependency counts only if it is imported itself
  ghost function ImportGraph(imported: map<Id, seq<Id>>): Graph {
    map a | a in imported :: set b | b in imported[a] && b in imported
  }

  class ImportOrder {
    const imported: map<Id, seq<Id>>
    var moduleIdsAdded: seq<Id>
    var modules: seq<Id>

    constructor (imported: map<Id, seq<Id>>)
      ensures this.imported == imported && moduleIdsAdded == [] && modules == []
    {
      this.imported := imported;
      moduleIdsAdded, modules := [], [];
    }

    ghost function G(): Graph {
      ImportGraph(imported)
    }

    ghost predicate Valid()
      reads this
    {
      && NoDuplicates(moduleIdsAdded) && NoDuplicates(modules)
      && Elements(modules) <= Elements(moduleIdsAdded) <= imported.Keys
    }

    // modules whose dependencies are being added right now
    ghost function Pending(): set<Id>
      reads this
    {
      Elements(moduleIdsAdded) - Elements(modules)
    }

    method AddModule(id: Id)
      requires Valid() && id in imported
      requires forall g :: g in Pending() ==> Reaches(G(), g, id)
      modifies this
      ensures Valid() && id in moduleIdsAdded && Pending() == old(Pending())
      ensures old(moduleIdsAdded) <= moduleIdsAdded && old(modules) <= modules
      ensures OrderedFrom(G(), modules, |old(modules)|)
      decreases imported.Keys - Elements(moduleIdsAdded)
    {
      if id in moduleIdsAdded {
        return;
      }
      ghost var before := Pending();
      ghost var start := |modules|;

      // added before its dependencies, so that circular references end here
      moduleIdsAdded := moduleIdsAdded + [id];
      assert Elements(moduleIdsAdded) == Elements(old(moduleIdsAdded)) + {id};
      ReachesItself(G(), id);
      var dependsOn := imported[id];
      for k := 0 to |dependsOn|
        invariant Valid() && Pending() == before + {id}
        invariant old(moduleIdsAdded) + [id] <= moduleIdsAdded && old(modules) <= modules
        invariant forall j :: 0 <= j < k && dependsOn[j] in imported ==> dependsOn[j] in moduleIdsAdded
        invariant OrderedFrom(G(), modules, start)
      {
        var dependId := dependsOn[k];
        if dependId in imported {
          forall g | g in Pending()
            ensures Reaches(G(), g, dependId)
          {
            ReachesFurther(G(), g, id, dependId);
          }
          AddModule(dependId);
        }
      }
      forall d | Edge(G(), id, d)
        ensures d in modules || Reaches(G(), d, id)
      {
        assert d in Elements(modules) || d in Pending();
      }
      OrderedWith(G(), modules, start, id);
      ghost var done := modules;
      modules := modules + [id];
      assert Elements(modules) == Elements(done) + {id};
    }

    // every module in turn, in whatever order they are given
    method AddAll(moduleIdsSort: seq<Id>)
      requires moduleIdsAdded == [] && modules == []
      requires Elements(moduleIdsSort) == imported.Keys
      modifies this
      ensures NoDuplicates(modules) && Elements(modules) == imported.Keys
      ensures BehindOnlyOnCycles(G(), modules)
    {
      for k := 0 to |moduleIdsSort|
        invariant Valid() && Pending() == {}
        invariant forall j :: 0 <= j < k ==> moduleIdsSort[j] in Elements(moduleIdsAdded)
        invariant OrderedFrom(G(), modules, 0)
      {
        ghost var before, added := modules, moduleIdsAdded;
        assert moduleIdsSort[k] in Elements(moduleIdsSort);
        AddModule(moduleIdsSort[k]);
        assert Elements(added) <= Elements(moduleIdsAdded);
        OrderedTogether(G(), before, modules, 0);
      }
      assert Elements(modules) == Elements(moduleIdsAdded) == imported.Keys by {
        assert forall x :: x in Elements(moduleIdsAdded) && x !in Elements(modules) ==> x in Pending();
      }
      OrderedIsBehindOnlyOnCycles(G(), modules);
    }
  }

  // modules to import -> a permutation of them, dependencies in front where there are no cycles
  method OrderModules(imported: map<Id, seq<Id>>, moduleIdsSort: seq<Id>) returns (order: seq<Id>)
    requires Elements(moduleIdsSort) == imported.Keys
    ensures NoDuplicates(order) && Elements(order) == imported.Keys
    ensures BehindOnlyOnCycles(ImportGraph(imported), order)
    ensures Acyclic(ImportGraph(imported)) ==>
              forall i, j :: 0 <= i < |order| && 0 <= j < |order| ==>
                Edge(ImportGraph(imported), order[i], order[j]) ==> j < i
  {
    var walk := new ImportOrder(imported);
    walk.AddAll(moduleIdsSort);
    order := walk.modules;
    if Acyclic(ImportGraph(imported)) {
      forall i, j | 0 <= i < |order| && 0 <= j < |order| && Edge(ImportGraph(imported), order[i], order[j])
        ensures j < i
      {
        DependenciesFirst(ImportGraph(imported), order, i, j);
      }
    }
  }

  // ---- changed modules

  ghost function DependsGraph(cache: map<Id, seq<Id>>): Graph {
    map a | a in cache :: set b | b in cache[a]
  }

  // what the check of a module finds: changed or not; it fails for a module without an entry
  type Check = map<Id, bool>

  // Exactly the modules reachable from a root have been checked.
  ghost predicate ReachableChecked(cache: map<Id, seq<Id>>, root: Id, hasChanged: Check, result: map<Id, bool>) {
    forall x :: (x in result <==> Reaches(DependsGraph(cache), root, x)) &&
                (x in result ==> x in hasChanged && hasChanged[x] == result[x])
  }

  // every module reachable from the root is known and can be checked
  ghost predicate AllCheckable(cache: map<Id, seq<Id>>, root: Id, hasChanged: Check) {
    forall x :: Reaches(DependsGraph(cache), root, x) ==> x in cache && x in hasChanged
  }

  class ChangeCheck {
    const cache: map<Id, seq<Id>>
    const root: Id
    const hasChanged: Check
    var moduleIdMapChecked: map<Id, bool>
    ghost var checks: seq<Id>  // the checks made

    constructor (cache: map<Id, seq<Id>>, root: Id, hasChanged: Check)
      ensures this.cache == cache && this.root == root && this.hasChanged == hasChanged
      ensures moduleIdMapChecked == map[] && checks == []
    {
      this.cache, this.root, this.hasChanged := cache, root, hasChanged;
      moduleIdMapChecked, checks := map[], [];
    }

    ghost function G(): Graph {
      DependsGraph(cache)
    }

    ghost predicate Valid()
      reads this
    {
      && moduleIdMapChecked.Keys <= cache.Keys
      && NoDuplicates(checks) && Elements(checks) == moduleIdMapChecked.Keys
      && forall x :: x in moduleIdMapChecked ==>
           Reaches(G(), root, x) && x in hasChanged && hasChanged[x] == moduleIdMapChecked[x]
    }

    // dependencies of checked modules are checked, except for modules still being worked on
    ghost predicate Followed(pending: set<Id>)
      reads this
    {
      forall x, d :: x in moduleIdMapChecked && x !in pending && Edge(G(), x, d) ==> d in moduleIdMapChecked
    }

    // a module whose dependencies are all checked need not be excepted any longer
    lemma WorkIsDone(id: Id, pending: set<Id>)
      requires id in cache && Followed(pending + {id})
      requires forall j :: 0 <= j < |cache[id]| ==> cache[id][j] in moduleIdMapChecked
      ensures Followed(pending)
    {
      forall x, d | x in moduleIdMapChecked && x !in pending && Edge(G(), x, d)
        ensures d in moduleIdMapChecked
      {
        if x == id {
          var j :| 0 <= j < |cache[id]| && cache[id][j] == d;
        }
      }
    }

    method Register(id: Id, changed: bool, ghost pending: set<Id>)
      requires Valid() && Followed(pending)
      requires id in cache && id !in moduleIdMapChecked
      requires Reaches(G(), root, id) && id in hasChanged && hasChanged[id] == changed
      modifies this
      ensures moduleIdMapChecked == old(moduleIdMapChecked)[id := changed]
      ensures Valid() && Followed(pending + {id})
    {
      assert id !in Elements(checks);
      moduleIdMapChecked, checks := moduleIdMapChecked[id := changed], checks + [id];
      assert moduleIdMapChecked.Keys == old(moduleIdMapChecked.Keys) + {id};
      assert Elements(checks) == Elements(old(checks)) + {id};
    }

    method CheckRecursive(id: Id, ghost pending: set<Id>) returns (ok: bool)
      requires Valid() && Followed(pending)
      requires Reaches(G(), root, id)
      modifies this
      ensures Valid() && forall x :: x in old(moduleIdMapChecked) ==> x in moduleIdMapChecked
      ensures ok ==> Followed(pending) && id in moduleIdMapChecked
      ensures !ok ==> !AllCheckable(cache, root, hasChanged)
      decreases cache.Keys - moduleIdMapChecked.Keys, 0
    {
      if id in moduleIdMapChecked {
        return true;
      }
      if id !in cache {
        return false;
      }
      if id !in hasChanged {
        return false;
      }
      Register(id, hasChanged[id], pending);
      ok := CheckDependencies(id, pending);
    }

    method CheckDependencies(id: Id, ghost pending: set<Id>) returns (ok: bool)
      requires Valid() && Followed(pending + {id})
      requires id in cache && Reaches(G(), root, id)
      modifies this
      ensures Valid() && forall x :: x in old(moduleIdMapChecked) ==> x in moduleIdMapChecked
      ensures ok ==> Followed(pending)
      ensures !ok ==> !AllCheckable(cache, root, hasChanged)
      decreases cache.Keys - moduleIdMapChecked.Keys, 1
    {
      var dependsOn := cache[id];
      for k := 0 to |dependsOn|
        invariant Valid() && Followed(pending + {id})
        invariant forall x :: x in old(moduleIdMapChecked) ==> x in moduleIdMapChecked
        invariant forall j :: 0 <= j < k ==> dependsOn[j] in moduleIdMapChecked
      {
        ReachesFurther(G(), root, id, dependsOn[k]);
        ghost var earlier := moduleIdMapChecked;
        ok := CheckRecursive(dependsOn[k], pending + {id});
        if !ok {
          return;
        }
        forall j | 0 <= j <= k
          ensures dependsOn[j] in moduleIdMapChecked
        {
          assert j < k ==> dependsOn[j] in earlier;
        }
      }
      WorkIsDone(id, pending);
      ok := true;
    }
  }

  method GetModuleChangedWithDependencies(cache: map<Id, seq<Id>>, moduleId: Id, hasChanged: Check)
    returns (r: Option<map<Id, bool>>, ghost checks: seq<Id>)
    ensures r.Some? <==> AllCheckable(cache, moduleId, hasChanged)
    ensures r.Some? ==> ReachableChecked(cache, moduleId, hasChanged, r.value)
    ensures NoDuplicates(checks) && (r.Some? ==> forall x :: x in checks <==> x in r.value)
  {
    var walk := new ChangeCheck(cache, moduleId, hasChanged);
    ReachesItself(DependsGraph(cache), moduleId);
    var ok := walk.CheckRecursive(moduleId, {});
    checks := walk.checks;
    if !ok {
      return None, checks;
    }
    r := Some(walk.moduleIdMapChecked);
    assert forall x :: x in checks <==> x in Elements(checks);
    forall x | Reaches(DependsGraph(cache), moduleId, x)
      ensures x in r.value
    {
      var p :| Connects(DependsGraph(cache), p, moduleId, x);
      ClosedHasReachable(DependsGraph(cache), r.value.Keys, p);
    }
  }

  // ---- module export

  // what the export needs to know of a module: its owner flag, if set, and whether it differs from
  // its released version
  datatype Meta = Meta(isOwner: Option<bool>, differs: bool)

  predicate Exportable(meta: map<Id, Meta>, id: Id) {
    id in meta && meta[id].isOwner.Some? && (meta[id].isOwner.value ==> !meta[id].differs)
  }

  // a module of others can be exported as it is, an own one without changes
  predicate MayExport(m: Meta) {
    match m.isOwner
    case None => false
    case Some(owner) => !(owner && m.differs)
  }

  lemma ExportableMeta(meta: map<Id, Meta>, id: Id)
    ensures Exportable(meta, id) <==> id in meta && MayExport(meta[id])
  {
  }

  ghost predicate AllExportable(cache: map<Id, seq<Id>>, root: Id, meta: map<Id, Meta>) {
    forall x :: Reaches(DependsGraph(cache), root, x) ==> x in cache && x in meta && MayExport(meta[x])
  }

  class Export {
    const cache: map<Id, seq<Id>>
    const root: Id
    const meta: map<Id, Meta>
    var moduleIdsExported: seq<Id>
    var filePaths: seq<Id>  // the file of a module is named by its ID

    constructor (cache: map<Id, seq<Id>>, root: Id, meta: map<Id, Meta>)
      ensures this.cache == cache && this.root == root && this.meta == meta
      ensures moduleIdsExported == [] && filePaths == []
    {
      this.cache, this.root, this.meta := cache, root, meta;
      moduleIdsExported, filePaths := [], [];
    }

    ghost function G(): Graph {
      DependsGraph(cache)
    }

    ghost predicate Valid()
      reads this
    {
      && NoDuplicates(moduleIdsExported) && NoDuplicates(filePaths)
      && Elements(filePaths) <= Elements(moduleIdsExported) <= cache.Keys
      && forall x :: x in moduleIdsExported ==> Reaches(G(), root, x)
    }

    ghost function Pending(): set<Id>
      reads this
    {
      Elements(moduleIdsExported) - Elements(filePaths)
    }

    ghost predicate Followed()
      reads this
    {
      forall x, d :: x in filePaths && Edge(G(), x, d) ==> d in moduleIdsExported
    }

    ghost predicate Finished()
      reads this
    {
      forall x :: x in filePaths ==> Exportable(meta, x)
    }

    method ExportModule(id: Id) returns (ok: bool)
      requires Valid() && Followed() && Finished()
      requires Reaches(G(), root, id)
      requires forall g :: g in Pending() ==> Reaches(G(), g, id)
      modifies this
      ensures !ok ==> !AllExportable(cache, root, meta)
      ensures ok ==> Valid() && Followed() && Finished() && id in moduleIdsExported && Pending() == old(Pending())
      ensures ok ==> old(moduleIdsExported) <= moduleIdsExported && old(filePaths) <= filePaths
      ensures ok ==> OrderedFrom(G(), filePaths, |old(filePaths)|)
      decreases cache.Keys - Elements(moduleIdsExported), 0
    {
      if id in moduleIdsExported {
        return true;
      }
      ghost var before := Pending();
      moduleIdsExported := moduleIdsExported + [id];
      if id !in cache {
        return false;
      }
      assert Elements(moduleIdsExported) == Elements(old(moduleIdsExported)) + {id};
      assert Pending() == before + {id};
      ReachesItself(G(), id);
      ok := ExportDependencies(id);
      if !ok {
        return;
      }
      if id !in meta || meta[id].isOwner.None? {
        return false;
      }
      if meta[id].isOwner.value && meta[id].differs {
        return false;
      }
      WriteFile(id, |old(filePaths)|);
      assert Pending() == before;
    }

    // the dependencies of a module that is on the list already
    method ExportDependencies(id: Id) returns (ok: bool)
      requires Valid() && Followed() && Finished() && id in cache && id in Pending()
      requires Reaches(G(), root, id)
      requires forall g :: g in Pending() ==> Reaches(G(), g, id)
      modifies this
      ensures !ok ==> !AllExportable(cache, root, meta)
      ensures ok ==> Valid() && Followed() && Finished() && Pending() == old(Pending())
      ensures ok ==> old(moduleIdsExported) <= moduleIdsExported && old(filePaths) <= filePaths
      ensures ok ==> OrderedFrom(G(), filePaths, |old(filePaths)|)
      ensures ok ==> forall j :: 0 <= j < |cache[id]| ==> cache[id][j] in moduleIdsExported
      decreases cache.Keys - Elements(moduleIdsExported), 1
    {
      var dependsOn := cache[id];
      for k := 0 to |dependsOn|
        invariant Valid() && Followed() && Finished() && Pending() == old(Pending())
        invariant old(moduleIdsExported) <= moduleIdsExported && old(filePaths) <= filePaths
        invariant forall j :: 0 <= j < k ==> dependsOn[j] in moduleIdsExported
        invariant OrderedFrom(G(), filePaths, |old(filePaths)|)
      {
        ReachesFurther(G(), root, id, dependsOn[k]);
        forall g | g in Pending()
          ensures Reaches(G(), g, dependsOn[k])
        {
          ReachesFurther(G(), g, id, dependsOn[k]);
        }
        ghost var earlier, files := moduleIdsExported, filePaths;
        assert forall d :: d in old(moduleIdsExported) ==> d in moduleIdsExported;
        ok := ExportModule(dependsOn[k]);
        if !ok {
          return;
        }
        assert forall d :: d in earlier ==> d in moduleIdsExported;
        OrderedTogether(G(), files, filePaths, |old(filePaths)|);
      }
      ok := true;
    }

    // the file of a module whose dependencies are on the list
    method WriteFile(id: Id, ghost start: nat)
      requires Valid() && Followed() && Finished() && id in cache && id in Pending() && Exportable(meta, id)
      requires forall g :: g in Pending() ==> Reaches(G(), g, id)
      requires forall j :: 0 <= j < |cache[id]| ==> cache[id][j] in moduleIdsExported
      requires start <= |filePaths| && OrderedFrom(G(), filePaths, start)
      modifies this`filePaths
      ensures Valid() && Followed() && Finished() && Pending() == old(Pending()) - {id}
      ensures filePaths == old(filePaths) + [id] && OrderedFrom(G(), filePaths, start)
    {
      forall d | Edge(G(), id, d)
        ensures d in filePaths || Reaches(G(), d, id)
      {
        var j :| 0 <= j < |cache[id]| && cache[id][j] == d;
        assert d in Elements(filePaths) || d in Pending();
      }
      OrderedWith(G(), filePaths, start, id);
      ghost var done := filePaths;
      filePaths := filePaths + [id];
      assert Elements(filePaths) == Elements(done) + {id};
    }
  }

  // The export lists each reachable module once, dependencies in front where there are no cycles; it
  // succeeds exactly when all of them can be exported.
  method ExportModules(cache: map<Id, seq<Id>>, moduleId: Id, meta: map<Id, Meta>) returns (r: Option<seq<Id>>)
    ensures r.Some? <==> AllExportable(cache, moduleId, meta)
    ensures r.Some? ==> NoDuplicates(r.value) && forall x :: x in r.value <==> Reaches(DependsGraph(cache), moduleId, x)
    ensures r.Some? ==> BehindOnlyOnCycles(DependsGraph(cache), r.value)
    ensures r.Some? && Acyclic(DependsGraph(cache)) ==>
              forall i, j :: 0 <= i < |r.value| && 0 <= j < |r.value| ==>
                Edge(DependsGraph(cache), r.value[i], r.value[j]) ==> j < i
  {
    var walk := new Export(cache, moduleId, meta);
    ReachesItself(DependsGraph(cache), moduleId);
    var ok := walk.ExportModule(moduleId);
    if !ok {
      return None;
    }
    var files := walk.filePaths;
    r := Some(files);
    assert forall x :: x in Elements(walk.moduleIdsExported) && x !in Elements(files) ==> x in walk.Pending();
    assert forall x :: x in walk.moduleIdsExported ==> x in Elements(walk.moduleIdsExported) && x in Elements(files);
    assert forall x :: x in files ==> x in Elements(files) && x in Elements(walk.moduleIdsExported);
    forall x | Reaches(DependsGraph(cache), moduleId, x)
      ensures x in files && Exportable(meta, x) && x in meta && MayExport(meta[x])
    {
      ExportableMeta(meta, x);
      var p :| Connects(DependsGraph(cache), p, moduleId, x);
      ClosedHasReachable(DependsGraph(cache), Elements(files), p);
    }
    OrderedIsBehindOnlyOnCycles(DependsGraph(cache), files);
    if Acyclic(DependsGraph(cache)) {
      forall i, j | 0 <= i < |files| && 0 <= j < |files| && Edge(DependsGraph(cache), files[i], files[j])
        ensures j < i
      {
        DependenciesFirst(DependsGraph(cache), files, i, j);
      }
    }
  }
}
