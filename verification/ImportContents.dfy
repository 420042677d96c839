/** What a module import consists of: every member of every list of every module, in an order that the database
    needs (transfer/transfer_import.go). */
module ImportContents {
  import opened DataRequest
  import opened ImportLoop
  import opened ImportProperties

  // ---- the members of a module, counted

  function Times(x: Id, id: Id): nat {
    if x == id then 1 else 0
  }

  function AttributeCount(attributes: seq<Attribute>, id: Id): nat {
    if attributes == [] then 0 else Times(attributes[0].id, id) + AttributeCount(attributes[1..], id)
  }

  // in all relations: the relations themselves, their attributes and their indexes
  function RelationCount(relations: seq<Relation>, id: Id): nat {
    if relations == [] then 0
    else
      var r := relations[0];
      Times(r.id, id) + AttributeCount(r.attributes, id) + multiset(r.indexes)[id] + RelationCount(relations[1..], id)
  }

  function PresetCount(presets: seq<Preset>, id: Id, isProtected: bool): nat {
    if presets == [] then 0
    else
      (if presets[0].id == id && presets[0].isProtected == isProtected then 1 else 0) +
      PresetCount(presets[1..], id, isProtected)
  }

  function RelationPresetCount(relations: seq<Relation>, id: Id, isProtected: bool): nat {
    if relations == [] then 0
    else PresetCount(relations[0].presets, id, isProtected) + RelationPresetCount(relations[1..], id, isProtected)
  }

  // how often an ID is that of the module or of something in it other than presets
  function MemberCount(m: Module, id: Id): nat {
    Times(m.id, id) + multiset(m.articles)[id] + multiset(m.icons)[id] + RelationCount(m.relations, id) +
    multiset(m.collections)[id] + multiset(m.apis)[id] + multiset(m.widgets)[id] + multiset(m.pgFunctions)[id] +
    multiset(m.pgTriggers)[id] + multiset(m.forms)[id] + multiset(m.loginForms)[id] + multiset(m.roles)[id] +
    multiset(m.jsFunctions)[id] + multiset(m.clientEvents)[id]
  }

  // how often an entity belongs to a module
  function EntityCount(m: Module, e: Entity): nat {
    if e.preset then RelationPresetCount(m.relations, e.id, e.isProtected)
    else if e.isProtected then 0
    else MemberCount(m, e.id)
  }

  function EntityCountAll(modules: seq<Module>, e: Entity): nat {
    if modules == [] then 0
    else EntityCountAll(modules[..|modules| - 1], e) + EntityCount(modules[|modules| - 1], e)
  }

  // ---- the lists

  lemma Joined<T>(a: seq<T>, b: seq<T>, x: T)
    ensures multiset(a + b)[x] == multiset(a)[x] + multiset(b)[x]
  {
  }

  lemma {:induction false} AttributesSplit(attributes: seq<Attribute>, id: Id)
    ensures multiset(AttributesOf(attributes, true))[id] + multiset(AttributesOf(attributes, false))[id] ==
            AttributeCount(attributes, id)
  {
    if attributes != [] {
      var a := attributes[0];
      AttributesSplit(attributes[1..], id);
      Joined(if a.isPk == true then [a.id] else [], AttributesOf(attributes[1..], true), id);
      Joined(if a.isPk == false then [a.id] else [], AttributesOf(attributes[1..], false), id);
    }
  }

  lemma IdsStep(r: Relation, rest: seq<Relation>, id: Id)
    ensures multiset(RelationIds([r] + rest))[id] == Times(r.id, id) + multiset(RelationIds(rest))[id]
  {
    assert RelationIds([r] + rest) == [r.id] + RelationIds(rest);
    Joined([r.id], RelationIds(rest), id);
  }

  lemma AttributesStep(r: Relation, rest: seq<Relation>, isPk: bool, id: Id)
    ensures multiset(AllAttributes([r] + rest, isPk))[id] ==
            multiset(AttributesOf(r.attributes, isPk))[id] + multiset(AllAttributes(rest, isPk))[id]
  {
    assert ([r] + rest)[1..] == rest;
    Joined(AttributesOf(r.attributes, isPk), AllAttributes(rest, isPk), id);
  }

  lemma IndexesStep(r: Relation, rest: seq<Relation>, id: Id)
    ensures multiset(AllIndexes([r] + rest))[id] == multiset(r.indexes)[id] + multiset(AllIndexes(rest))[id]
  {
    assert ([r] + rest)[1..] == rest;
    Joined(r.indexes, AllIndexes(rest), id);
  }

  lemma {:induction false} RelationsSplit(relations: seq<Relation>, id: Id)
    ensures multiset(RelationIds(relations))[id] + multiset(AllAttributes(relations, true))[id] +
            multiset(AllAttributes(relations, false))[id] + multiset(AllIndexes(relations))[id] ==
            RelationCount(relations, id)
  {
    if relations != [] {
      var r, rest := relations[0], relations[1..];
      assert relations == [r] + rest;
      RelationsSplit(rest, id);
      AttributesSplit(r.attributes, id);
      IdsStep(r, rest, id);
      AttributesStep(r, rest, true, id);
      AttributesStep(r, rest, false, id);
      IndexesStep(r, rest, id);
    }
  }

  lemma {:induction false} PlainCounts(ids: seq<Id>, e: Entity)
    ensures multiset(Plain(ids))[e] == if e.preset || e.isProtected then 0 else multiset(ids)[e.id]
  {
    if ids != [] {
      var n := |ids| - 1;
      PlainCounts(ids[..n], e);
      assert Plain(ids) == Plain(ids[..n]) + [Entity(ids[n], false, false)];
      assert ids == ids[..n] + [ids[n]];
    }
  }

  function PresetsOf(presets: seq<Preset>): seq<Entity> {
    seq(|presets|, i requires 0 <= i < |presets| => Entity(presets[i].id, true, presets[i].isProtected))
  }

  lemma {:induction false} PresetsCount(presets: seq<Preset>, e: Entity)
    ensures multiset(PresetsOf(presets))[e] == if e.preset then PresetCount(presets, e.id, e.isProtected) else 0
  {
    if presets != [] {
      PresetsCount(presets[1..], e);
      var first := Entity(presets[0].id, true, presets[0].isProtected);
      assert PresetsOf(presets) == [first] + PresetsOf(presets[1..]);
      Joined([first], PresetsOf(presets[1..]), e);
    }
  }

  lemma {:induction false} AllPresetsCount(relations: seq<Relation>, e: Entity)
    ensures multiset(AllPresets(relations))[e] ==
            if e.preset then RelationPresetCount(relations, e.id, e.isProtected) else 0
  {
    if relations != [] {
      AllPresetsCount(relations[1..], e);
      PresetsCount(relations[0].presets, e);
      assert AllPresets(relations) == PresetsOf(relations[0].presets) + AllPresets(relations[1..]);
      Joined(PresetsOf(relations[0].presets), AllPresets(relations[1..]), e);
    }
  }

  // the IDs of a module in their order: before its attributes, primary keys, other attributes, the rest
  function Head(m: Module): seq<Id> {
    [m.id] + m.articles + m.icons + RelationIds(m.relations)
  }

  function Tail(m: Module): seq<Id> {
    m.collections + m.apis + m.widgets + m.pgFunctions + m.pgTriggers + AllIndexes(m.relations) + m.forms +
    m.loginForms + m.roles + m.jsFunctions + m.clientEvents
  }

  lemma EntityParts(m: Module)
    ensures EntitiesOf(m) ==
            Plain(Head(m) + AllAttributes(m.relations, true) + AllAttributes(m.relations, false) + Tail(m)) +
            AllPresets(m.relations)
  {
    assert [m.id] + m.articles + m.icons + RelationIds(m.relations) + AllAttributes(m.relations, true) +
           AllAttributes(m.relations, false) + m.collections + m.apis + m.widgets + m.pgFunctions + m.pgTriggers +
           AllIndexes(m.relations) + m.forms + m.loginForms + m.roles + m.jsFunctions + m.clientEvents ==
           Head(m) + AllAttributes(m.relations, true) + AllAttributes(m.relations, false) + Tail(m);
  }

  lemma HeadCounts(m: Module, id: Id)
    ensures multiset(Head(m))[id] ==
            Times(m.id, id) + multiset(m.articles)[id] + multiset(m.icons)[id] + multiset(RelationIds(m.relations))[id]
  {
  }

  lemma TailCounts(m: Module, id: Id)
    ensures multiset(Tail(m))[id] ==
            multiset(m.collections)[id] + multiset(m.apis)[id] + multiset(m.widgets)[id] + multiset(m.pgFunctions)[id] +
            multiset(m.pgTriggers)[id] + multiset(AllIndexes(m.relations))[id] + multiset(m.forms)[id] +
            multiset(m.loginForms)[id] + multiset(m.roles)[id] + multiset(m.jsFunctions)[id] +
                multiset(m.clientEvents)[id]
  {
  }

  // A module is imported with all its members and nothing else, each as often as it is there, and its presets
  // with their own protection.
  lemma ModuleIsImported(m: Module, e: Entity)
    ensures multiset(EntitiesOf(m))[e] == EntityCount(m, e)
  {
    var pks, others := AllAttributes(m.relations, true), AllAttributes(m.relations, false);
    EntityParts(m);
    PlainCounts(Head(m) + pks + others + Tail(m), e);
    AllPresetsCount(m.relations, e);
    Joined(Plain(Head(m) + pks + others + Tail(m)), AllPresets(m.relations), e);
    Joined(Head(m) + pks + others, Tail(m), e.id);
    Joined(Head(m) + pks, others, e.id);
    Joined(Head(m), pks, e.id);
    HeadCounts(m, e.id);
    TailCounts(m, e.id);
    RelationsSplit(m.relations, e.id);
  }

  lemma LastModule(modules: seq<Module>)
    requires modules != []
    ensures AllEntities(modules) == AllEntities(modules[..|modules| - 1]) + EntitiesOf(modules[|modules| - 1])
  {
    var n := |modules| - 1;
    var lists := EntityLists(modules);
    assert lists[..n] == EntityLists(modules[..n]) && lists[n] == EntitiesOf(modules[n]);
    assert Flatten(lists) == Flatten(lists[..n]) + lists[n];
  }

  lemma {:induction false} AllModulesAreImported(modules: seq<Module>, e: Entity)
    ensures multiset(AllEntities(modules))[e] == EntityCountAll(modules, e)
  {
    if modules != [] {
      var n := |modules| - 1;
      AllModulesAreImported(modules[..n], e);
      ModuleIsImported(modules[n], e);
      LastModule(modules);
      Joined(AllEntities(modules[..n]), EntitiesOf(modules[n]), e);
    }
  }

  // ---- the order within a module

  // an attribute of some relation of the module, a primary key or not
  predicate HasAttribute(m: Module, id: Id, isPk: bool) {
    exists r, a :: 0 <= r < |m.relations| && 0 <= a < |m.relations[r].attributes| &&
                   m.relations[r].attributes[a] == Attribute(id, isPk)
  }

  lemma {:induction false} AttributeListed(attributes: seq<Attribute>, a: nat, isPk: bool)
    requires a < |attributes| && attributes[a].isPk == isPk
    ensures attributes[a].id in AttributesOf(attributes, isPk)
  {
    if a > 0 {
      AttributeListed(attributes[1..], a - 1, isPk);
    }
  }

  lemma {:induction false} AttributeOfAll(relations: seq<Relation>, r: nat, a: nat, isPk: bool)
    requires r < |relations| && a < |relations[r].attributes| && relations[r].attributes[a].isPk == isPk
    ensures relations[r].attributes[a].id in AllAttributes(relations, isPk)
  {
    if r > 0 {
      AttributeOfAll(relations[1..], r - 1, a, isPk);
    } else {
      AttributeListed(relations[0].attributes, a, isPk);
    }
  }

  // Within a module, primary keys come before all other attributes, and presets come last.
  lemma KeysFirstPresetsLast(m: Module, i: nat, j: nat)
    requires DistinctIds(EntitiesOf(m)) && i < |EntitiesOf(m)| && j < |EntitiesOf(m)|
    ensures HasAttribute(m, EntitiesOf(m)[i].id, true) && HasAttribute(m, EntitiesOf(m)[j].id, false) ==> i < j
    ensures !EntitiesOf(m)[i].preset && EntitiesOf(m)[j].preset ==> i < j
  {
    var es, pks, others := EntitiesOf(m), AllAttributes(m.relations, true), AllAttributes(m.relations, false);
    EntityParts(m);
    PresetsArePresets(m.relations);
    if HasAttribute(m, es[i].id, true) && HasAttribute(m, es[j].id, false) {
      var r, a :| 0 <= r < |m.relations| && 0 <= a < |m.relations[r].attributes| &&
                  m.relations[r].attributes[a] == Attribute(es[i].id, true);
      var s, b :| 0 <= s < |m.relations| && 0 <= b < |m.relations[s].attributes| &&
                  m.relations[s].attributes[b] == Attribute(es[j].id, false);
      AttributeOfAll(m.relations, r, a, true);
      AttributeOfAll(m.relations, s, b, false);
      var x :| 0 <= x < |pks| && pks[x] == es[i].id;
      var y :| 0 <= y < |others| && others[y] == es[j].id;
      InOrder(es, Head(m), pks, others, Tail(m), AllPresets(m.relations), x, y);
    }
  }

  lemma {:induction false} PresetsArePresets(relations: seq<Relation>)
    ensures forall e :: e in AllPresets(relations) ==> e.preset
  {
    if relations != [] {
      PresetsArePresets(relations[1..]);
    }
  }

  lemma InOrder(es: seq<Entity>, head: seq<Id>, pks: seq<Id>, others: seq<Id>, tail: seq<Id>, last: seq<Entity>, x: nat,
                y: nat)
    requires es == Plain(head + pks + others + tail) + last && x < |pks| && y < |others|
    ensures es[|head| + x].id == pks[x] && es[|head| + |pks| + y].id == others[y]
  {
    var ids := head + pks + others + tail;
    assert ids[|head| + x] == pks[x] && ids[|head| + |pks| + y] == others[y];
  }

  // With distinct IDs, a commit has accepted every member of every module exactly once.
  lemma CommitHasAllMembers<S>(set_: Setter<S>, start: S, modules: seq<Module>, passes: nat, e: Entity)
    requires DistinctIds(AllEntities(modules)) && passes >= 1
    requires Passes(set_, start, AllEntities(modules), passes).skipped == {} && EntityCountAll(modules, e) > 0
    ensures Accepted(Passes(set_, start, AllEntities(modules), passes).attempts, e.id) == 1
  {
    AllModulesAreImported(modules, e);
    assert e in multiset(AllEntities(modules));
    var k :| 0 <= k < |AllEntities(modules)| && AllEntities(modules)[k] == e;
    AcceptedExactlyOnce(set_, start, AllEntities(modules), passes, k);
  }
}
