/** The schema and access cache as one login sees it, and the relation policies that apply to it
    (data/data.go). */
module SchemaCache {
  import opened Wrappers
  import opened DataRequest
  import opened SqlTree

  datatype Content = Files | Relationship | Relationship11 | Regconfig | OtherContent

  datatype Attribute = Attribute(relationId: Id, name: string, content: Content, relationshipId: Option<Id>)

  datatype RelationPolicy = RelationPolicy(
    roleId: Id,
    actionDelete: bool,
    actionSelect: bool,
    actionUpdate: bool,
    excl: Option<Id>,
    incl: Option<Id>)

  datatype Relation = Relation(moduleId: Id, name: string, policies: seq<RelationPolicy>)

  datatype PgFunction = PgFunction(moduleId: Id, name: string)

  datatype Access = Access(roleIds: set<Id>, attribute: map<Id, int>, relation: map<Id, int>)

  datatype Cache = Cache(
    modules: map<Id, string>,
    relations: map<Id, Relation>,
    attributes: map<Id, Attribute>,
    functions: map<Id, PgFunction>,
    dictionaries: set<string>,
    access: Option<Access>)

  datatype Error =
    | Unauthorized
    | NoAccess
    | UnknownModule(id: Id)
    | UnknownRelation(id: Id)
    | UnknownAttribute(id: Id)
    | UnknownFunction(id: Id)
    | UnknownPolicyAction(action: string)
    | NotARelationship
    | BadJoinConnector
    | BadFilterConnector
    | BadFilterOperator

  // a more specific attribute access wins over the access to its relation
  predicate AuthorizedAttribute(sc: Cache, id: Id, requested: int) {
    match sc.access
    case None => false
    case Some(access) =>
      if id in access.attribute then access.attribute[id] >= requested
      else if id !in sc.attributes then false
      else
        var rel := sc.attributes[id].relationId;
        rel in access.relation && access.relation[rel] >= requested
  }

  // ---- policies

  // names of the functions returning the blacklist and the whitelist, if any
  datatype PolicyNames = PolicyNames(blacklist: Option<(string, string)>, whitelist: Option<(string, string)>)

  function FunctionName(sc: Cache, id: Id): Result<(string, string), Error> {
    if id !in sc.functions then Failure(UnknownFunction(id))
    else
      var fnc := sc.functions[id];
      if fnc.moduleId !in sc.modules then Failure(UnknownModule(fnc.moduleId))
      else Success((sc.modules[fnc.moduleId], fnc.name))
  }

  function OptionalFunctionName(sc: Cache, id: Option<Id>): Result<Option<(string, string)>, Error> {
    if id.None? then Success(None)
    else
      var name :- FunctionName(sc, id.value);
      Success(Some(name))
  }

  predicate KnownAction(action: string) {
    action in ["delete", "select", "update"]
  }

  predicate AppliesTo(p: RelationPolicy, action: string) {
    (action == "delete" && p.actionDelete) ||
    (action == "select" && p.actionSelect) ||
    (action == "update" && p.actionUpdate)
  }

  function NamesOf(sc: Cache, p: RelationPolicy): Result<PolicyNames, Error> {
    var blacklist :- OptionalFunctionName(sc, p.excl);
    var whitelist :- OptionalFunctionName(sc, p.incl);
    Success(PolicyNames(blacklist, whitelist))
  }

  // What the policy loop decides. Policies of foreign roles are not even looked at, so that an
  // unknown action is noticed only when the login holds the role of some policy.
  function PolicyNamesFor(sc: Cache, action: string, roleIds: set<Id>,
                          policies: seq<RelationPolicy>): Result<PolicyNames, Error> {
    if policies == [] then Success(PolicyNames(None, None))
    else if policies[0].roleId !in roleIds then PolicyNamesFor(sc, action, roleIds, policies[1..])
    else if !KnownAction(action) then Failure(UnknownPolicyAction(action))
    else if !AppliesTo(policies[0], action) then PolicyNamesFor(sc, action, roleIds, policies[1..])
    else NamesOf(sc, policies[0])
  }

  method GetPolicyFunctionNames(sc: Cache, action: string, policies: seq<RelationPolicy>)
    returns (r: Result<PolicyNames, Error>)
    ensures sc.access.None? ==> r == Failure(NoAccess)
    ensures sc.access.Some? ==> r == PolicyNamesFor(sc, action, sc.access.value.roleIds, policies)
  {
    if sc.access.None? {
      return Failure(NoAccess);
    }
    var roleIds := sc.access.value.roleIds;
    for i := 0 to |policies|
      invariant PolicyNamesFor(sc, action, roleIds, policies) == PolicyNamesFor(sc, action, roleIds, policies[i..])
    {
      var p := policies[i];
      assert policies[i..][0] == p && policies[i..][1..] == policies[i + 1..];
      if p.roleId !in roleIds {
        continue;
      }
      match action {
        case "delete" => if !p.actionDelete { continue; }
        case "select" => if !p.actionSelect { continue; }
        case "update" => if !p.actionUpdate { continue; }
        case _ => return Failure(UnknownPolicyAction(action));
      }
      var blacklist := OptionalFunctionName(sc, p.excl);
      if blacklist.Failure? {
        return Failure(blacklist.error);
      }
      var whitelist := OptionalFunctionName(sc, p.incl);
      if whitelist.Failure? {
        return Failure(whitelist.error);
      }
      return Success(PolicyNames(blacklist.value, whitelist.value));
    }
    return Success(PolicyNames(None, None));
  }

  // The first policy of the login that covers the action decides alone, even if it names no function.
  lemma {:induction false} FirstMatchingPolicyDecides(
      sc: Cache, action: string, roleIds: set<Id>, policies: seq<RelationPolicy>, k: nat)
    requires KnownAction(action)
    requires k < |policies|
    requires policies[k].roleId in roleIds && AppliesTo(policies[k], action)
    requires forall i :: 0 <= i < k ==> !(policies[i].roleId in roleIds && AppliesTo(policies[i], action))
    ensures PolicyNamesFor(sc, action, roleIds, policies) == NamesOf(sc, policies[k])
  {
    if k > 0 {
      FirstMatchingPolicyDecides(sc, action, roleIds, policies[1..], k - 1);
    }
  }

  // the policy clauses of a relation read under an alias: nothing, or AND clause [AND clause]
  function PolicyClauses(names: PolicyNames, index: int, nested: int): (ts: seq<Token>)
    ensures forall t :: t in ts ==> t.And? || t.Policy?
  {
    (if names.blacklist.Some?
     then [And, Policy(index, nested, true, names.blacklist.value.0, names.blacklist.value.1)] else []) +
    (if names.whitelist.Some?
     then [And, Policy(index, nested, false, names.whitelist.value.0, names.whitelist.value.1)] else [])
  }

  function PolicyFilter(sc: Cache, action: string, index: int, nested: int,
                        policies: seq<RelationPolicy>): Result<seq<Token>, Error> {
    if policies == [] then Success([])
    else if sc.access.None? then Failure(NoAccess)
    else
      var names :- PolicyNamesFor(sc, action, sc.access.value.roleIds, policies);
      Success(PolicyClauses(names, index, nested))
  }

  method GetPolicyFilter(sc: Cache, action: string, index: int, nested: int, policies: seq<RelationPolicy>)
    returns (r: Result<seq<Token>, Error>)
    ensures r == PolicyFilter(sc, action, index, nested, policies)
  {
    if |policies| == 0 {
      return Success([]);
    }
    var names := GetPolicyFunctionNames(sc, action, policies);
    if names.Failure? {
      return Failure(names.error);
    }
    var clauses: seq<Token> := [];
    if names.value.blacklist.Some? {
      var fnc := names.value.blacklist.value;
      clauses := clauses + [And, Policy(index, nested, true, fnc.0, fnc.1)];
    }
    if names.value.whitelist.Some? {
      var fnc := names.value.whitelist.value;
      clauses := clauses + [And, Policy(index, nested, false, fnc.0, fnc.1)];
    }
    assert clauses == PolicyClauses(names.value, index, nested);
    return Success(clauses);
  }

  // ---- what a policy filter says

  // the policy is for a role that the login holds, and for this action
  predicate Fits(access: Access, p: RelationPolicy, action: string) {
    p.roleId in access.roleIds &&
    match action
    case "delete" => p.actionDelete
    case "select" => p.actionSelect
    case "update" => p.actionUpdate
    case _ => false
  }

  // policy k is the first that fits
  predicate Decides(access: Access, policies: seq<RelationPolicy>, action: string, k: nat) {
    k < |policies| && Fits(access, policies[k], action) && forall i :: 0 <= i < k ==> !Fits(access, policies[i], action)
  }

  // the function that a policy refers to, with its module
  predicate Names(sc: Cache, id: Option<Id>, fncModule: string, fncName: string) {
    && id.Some? && id.value in sc.functions && sc.functions[id.value].name == fncName
    && sc.functions[id.value].moduleId in sc.modules && sc.modules[sc.functions[id.value].moduleId] == fncModule
  }

  lemma FitsIffApplies(access: Access, p: RelationPolicy, action: string)
    requires KnownAction(action)
    ensures Fits(access, p, action) <==> p.roleId in access.roleIds && AppliesTo(p, action)
  {
    assert ["delete", "select", "update"] == ["delete"] + ["select"] + ["update"];
  }

  lemma DecidingNames(sc: Cache, p: RelationPolicy)
    requires NamesOf(sc, p).Success?
    ensures var names := NamesOf(sc, p).value;
            && (names.blacklist.Some? <==> p.excl.Some?) && (names.whitelist.Some? <==> p.incl.Some?)
            && (names.blacklist.Some? ==> Names(sc, p.excl, names.blacklist.value.0, names.blacklist.value.1))
            && (names.whitelist.Some? ==> Names(sc, p.incl, names.whitelist.value.0, names.whitelist.value.1))
  {
  }

  // A filter shuts out by the blacklist function of the deciding policy and lets in by its whitelist function,
  // by each if and only if the policy has one, and says nothing else.
  lemma FilterOfDecidingPolicy(sc: Cache, action: string, index: int, nested: int, policies: seq<RelationPolicy>,
                               k: nat)
    requires KnownAction(action) && sc.access.Some? && Decides(sc.access.value, policies, action, k)
    requires PolicyFilter(sc, action, index, nested, policies).Success?
    ensures var ts := PolicyFilter(sc, action, index, nested, policies).value;
            && |ts| == (if policies[k].excl.Some? then 2 else 0) + (if policies[k].incl.Some? then 2 else 0)
            && forall m, f :: Policy(index, nested, true, m, f) in ts <==> Names(sc, policies[k].excl, m, f)
    ensures var ts := PolicyFilter(sc, action, index, nested, policies).value;
            forall m, f :: Policy(index, nested, false, m, f) in ts <==> Names(sc, policies[k].incl, m, f)
    ensures forall i :: 0 <= i < |PolicyFilter(sc, action, index, nested, policies).value| ==>
              var t := PolicyFilter(sc, action, index, nested, policies).value[i];
              if i % 2 == 0 then t.And? else t.Policy? && t.index == index && t.nested == nested
  {
    forall i | 0 <= i <= k
      ensures Fits(sc.access.value, policies[i], action) <==>
              policies[i].roleId in sc.access.value.roleIds && AppliesTo(policies[i], action)
    {
      FitsIffApplies(sc.access.value, policies[i], action);
    }
    FirstMatchingPolicyDecides(sc, action, sc.access.value.roleIds, policies, k);
    DecidingNames(sc, policies[k]);
    ClausesSay(NamesOf(sc, policies[k]).value, index, nested);
  }

  lemma ClausesSay(names: PolicyNames, index: int, nested: int)
    ensures var ts := PolicyClauses(names, index, nested);
            && |ts| == (if names.blacklist.Some? then 2 else 0) + (if names.whitelist.Some? then 2 else 0)
            && (forall m, f :: Policy(index, nested, true, m, f) in ts <==> names.blacklist == Some((m, f)))
            && (forall m, f :: Policy(index, nested, false, m, f) in ts <==> names.whitelist == Some((m, f)))
    ensures forall i :: 0 <= i < |PolicyClauses(names, index, nested)| ==>
              var t := PolicyClauses(names, index, nested)[i];
              if i % 2 == 0 then t.And? else t.Policy? && t.index == index && t.nested == nested
  {
    var ts := PolicyClauses(names, index, nested);
    if names.blacklist.Some? {
      assert ts[1] == Policy(index, nested, true, names.blacklist.value.0, names.blacklist.value.1);
    }
    if names.whitelist.Some? {
      assert ts[|ts| - 1] == Policy(index, nested, false, names.whitelist.value.0, names.whitelist.value.1);
    }
  }

  // Without a policy that fits, nothing is filtered.
  lemma NoFilterWithoutFit(sc: Cache, action: string, index: int, nested: int, policies: seq<RelationPolicy>)
    requires KnownAction(action) && PolicyFilter(sc, action, index, nested, policies).Success?
    requires sc.access.None? || forall p :: p in policies ==> !Fits(sc.access.value, p, action)
    ensures PolicyFilter(sc, action, index, nested, policies).value == []
  {
    if policies != [] {
      NoNamesWithoutFit(sc, action, sc.access.value, policies);
    }
  }

  lemma {:induction false} NoNamesWithoutFit(sc: Cache, action: string, access: Access, policies: seq<RelationPolicy>)
    requires KnownAction(action) && forall p :: p in policies ==> !Fits(access, p, action)
    ensures PolicyNamesFor(sc, action, access.roleIds, policies) == Success(PolicyNames(None, None))
  {
    if policies != [] {
      assert policies[0] in policies;
      FitsIffApplies(access, policies[0], action);
      NoNamesWithoutFit(sc, action, access, policies[1..]);
    }
  }

  // ---- who may read or write an attribute

  // what the login was granted for an attribute: for itself, or else for its relation
  predicate Granted(sc: Cache, id: Id, level: int) {
    sc.access.Some? &&
    var access := sc.access.value;
    if id in access.attribute then access.attribute[id] == level
    else
      && id in sc.attributes && sc.attributes[id].relationId in access.relation
      && access.relation[sc.attributes[id].relationId] == level
  }

  lemma AuthorizedIffGranted(sc: Cache, id: Id, requested: int)
    ensures AuthorizedAttribute(sc, id, requested) <==> exists level :: Granted(sc, id, level) && level >= requested
  {
    if AuthorizedAttribute(sc, id, requested) {
      var access := sc.access.value;
      var level := if id in access.attribute then access.attribute[id]
                   else access.relation[sc.attributes[id].relationId];
      assert Granted(sc, id, level);
    }
  }
}
