/** The compiler in the form the program has it (data/data_get.go): mutually recursive procedures
    that append to shared argument lists. Each is proved to build exactly what QueryCompiler says. */
module QueryBuilding {
  import opened Wrappers
  import opened DataRequest
  import opened SchemaCache
  import opened SqlTree
  import opened QueryCompiler

  // a slice of SQL arguments, shared through a pointer
  class ArgList {
    var items: seq<Value>

    constructor ()
      ensures items == []
    {
      items := [];
    }

    method Append(v: Value)
      modifies this
      ensures items == old(items) + [v]
    {
      items := items + [v];
    }
  }

  function ListArgs(query: ArgList, count: ArgList?): Args
    reads query, count
  {
    Args(query.items, if count != null then Some(count.items) else None)
  }

  // the outcome of a step that appends arguments: its value on success, and the lists after it
  ghost predicate Built<T(!new)>(expected: Result<(T, Args), Error>, r: Result<T, Error>, after: Args) {
    match expected
    case Failure(e) => r == Failure(e)
    case Success((v, args)) => r == Success(v) && after == args
  }

  method ArgumentValue(operator: Operator, userValue: Value) returns (value: Value)
    ensures value == ArgumentOf(operator, userValue)
  {
    value := userValue;
    if IsLikeOperator(operator) {
      if value.PgText? {
        value := Text(value.s);
      }
      value := Wildcard(value);
    }
    if value.Bool? {
      value := if value.b then Text("true") else Text("false");
    }
  }

  method BuildComp(sc: Cache, ghost owner: DataGet, side: Side, operator: Operator, textSearch: bool,
                   queryArgs: ArgList, queryCountArgs: ArgList?, nesting: nat) returns (r: Result<Comp, Error>)
    requires side.query < owner
    requires queryArgs != queryCountArgs
    modifies queryArgs, queryCountArgs
    ensures Built(GetComp(sc, owner, side, operator, textSearch, old(ListArgs(queryArgs, queryCountArgs)), nesting),
                  r, ListArgs(queryArgs, queryCountArgs))
    decreases owner, 0, 0
  {
    if side.query.relationId != NIL {
      var sub := BuildQuery(sc, side.query, queryArgs, queryCountArgs, nesting + 1);
      if sub.Failure? {
        return Failure(sub.error);
      }
      return Success(SubSelect(sub.value.0));
    }
    if side.attributeId.Some? {
      return ColumnOf(sc, side, operator, textSearch);
    }
    if IsNullOperator(operator) {
      return Success(if side.value.Nil? then NullLiteral else NotNullLiteral);
    }
    var value := ArgumentValue(operator, side.value);
    queryArgs.Append(value);
    if queryCountArgs != null {
      queryCountArgs.Append(value);
    }
    if side.ftsDict.Some? {
      var dict := side.ftsDict.value;
      if dict !in sc.dictionaries {
        dict := "simple";
      }
      return Success(TextSearch(dict, |queryArgs.items|));
    }
    return Success(Placeholder(|queryArgs.items|));
  }

  method BuildWhere(sc: Cache, ghost owner: DataGet, filter: Filter, queryArgs: ArgList, queryCountArgs: ArgList?,
                    nesting: nat)
    returns (r: Result<WhereLine, Error>)
    requires filter.side0.query < owner && filter.side1.query < owner
    requires queryArgs != queryCountArgs
    modifies queryArgs, queryCountArgs
    ensures Built(AddWhere(sc, owner, filter, old(ListArgs(queryArgs, queryCountArgs)), nesting),
                  r, ListArgs(queryArgs, queryCountArgs))
    decreases owner, 1, 0
  {
    if filter.connector.BadConnector? {
      return Failure(BadFilterConnector);
    }
    if filter.operator.BadOperator? {
      return Failure(BadFilterOperator);
    }
    var textSearch := filter.side0.ftsDict.Some? || filter.side1.ftsDict.Some?;
    var isNullOp := IsNullOperator(filter.operator);
    var comp0 := BuildComp(sc, owner, filter.side0, filter.operator, textSearch, queryArgs, queryCountArgs, nesting);
    if comp0.Failure? {
      return Failure(comp0.error);
    }
    var right := NoComp;
    if !isNullOp {
      var comp1 := BuildComp(sc, owner, filter.side1, filter.operator, textSearch, queryArgs, queryCountArgs, nesting);
      if comp1.Failure? {
        return Failure(comp1.error);
      }
      right := comp1.value;
      if IsArrayOperator(filter.operator) {
        right := Bracketed(right);
      }
    }
    return Success(FilterLine(filter.connector, filter.side0.brackets, comp0.value, filter.operator, right,
           filter.side1.brackets));
  }

  method BuildExpression(sc: Cache, ghost owner: DataGet, expr: Expression, pos: nat,
                         queryArgs: ArgList, queryCountArgs: ArgList?, nesting: nat) returns (r: Result<Item, Error>)
    requires expr.query < owner
    requires queryArgs != queryCountArgs
    modifies queryArgs, queryCountArgs
    ensures Built(AddExpression(sc, owner, expr, pos, old(ListArgs(queryArgs, queryCountArgs)), nesting),
                  r, ListArgs(queryArgs, queryCountArgs))
    decreases owner, 1, 0
  {
    if expr.returnNull {
      return Success(GetExpression(expr, NullCode, pos));
    }
    if expr.attributeId.None? {
      var queryCountArgsOptional: ArgList? := queryCountArgs;
      if nesting == 0 {
        queryCountArgsOptional := null;
      }
      var sub := BuildQuery(sc, expr.query, queryArgs, queryCountArgsOptional, nesting + 1);
      if sub.Failure? {
        return Failure(sub.error);
      }
      return Success(GetExpression(expr, SelectCode(sub.value.0), pos));
    }
    r := AddSelect(sc, expr, pos, nesting);
  }

  method BuildJoins(sc: Cache, data: DataGet, nesting: nat) returns (r: Result<(map<int, Id>, seq<JoinClause>), Error>)
    ensures r == AddJoins(sc, map[data.indexSource := data.relationId], data.joins, [], nesting)
  {
    var rels: map<int, Id> := map[data.indexSource := data.relationId];
    var inJoin: seq<JoinClause> := [];
    for i := 0 to |data.joins|
      invariant AddJoins(sc, map[data.indexSource := data.relationId], data.joins, [], nesting)
             == AddJoins(sc, rels, data.joins[i..], inJoin, nesting)
    {
      var join := data.joins[i];
      assert data.joins[i..][1..] == data.joins[i + 1..];
      if join.indexFrom == -1 {
        continue;
      }
      var added := AddJoin(sc, rels, join, nesting);
      if added.Failure? {
        return Failure(added.error);
      }
      rels := added.value.0;
      inJoin := inJoin + [added.value.1];
    }
    return Success((rels, inJoin));
  }

  method BuildQuery(sc: Cache, data: DataGet, queryArgs: ArgList, queryCountArgs: ArgList?, nesting: nat)
    returns (r: Result<(Select, Option<Select>), Error>)
    requires queryArgs != queryCountArgs
    modifies queryArgs, queryCountArgs
    ensures match PrepareQuery(sc, data, old(ListArgs(queryArgs, queryCountArgs)), nesting)
            case Failure(e) => r == Failure(e)
            case Success(c) => r == Success((c.sql, c.count)) && ListArgs(queryArgs, queryCountArgs) == c.args
    decreases data, 3, 0
  {
    ghost var args := ListArgs(queryArgs, queryCountArgs);
    for i := 0 to |data.expressions|
      invariant forall k :: 0 <= k < i ==> !Denied(sc, data.expressions[k])
    {
      if Denied(sc, data.expressions[i]) {
        return Failure(Unauthorized);
      }
    }
    if data.relationId !in sc.relations {
      return Failure(UnknownRelation(data.relationId));
    }
    var rel := sc.relations[data.relationId];
    if rel.moduleId !in sc.modules {
      return Failure(UnknownModule(rel.moduleId));
    }
    var joined := BuildJoins(sc, data, nesting);
    if joined.Failure? {
      return Failure(joined.error);
    }

    // filters come before expressions, whose arguments the count query must not see
    var inWhere: seq<WhereLine> := [];
    for i := 0 to |data.filters|
      invariant ListArgs(queryArgs, queryCountArgs).count.Some? == (queryCountArgs != null)
      invariant AddFilters(sc, data, 0, [], args, nesting)
             == AddFilters(sc, data, i, inWhere, ListArgs(queryArgs, queryCountArgs), nesting)
    {
      var filter := data.filters[i];
      if i == 0 {
        filter := filter.(connector := ConnectAnd, side0 := filter.side0.(brackets := filter.side0.brackets + 1));
      }
      if i == |data.filters| - 1 {
        filter := filter.(side1 := filter.side1.(brackets := filter.side1.brackets + 1));
      }
      assert filter == FilterAt(data.filters, i);
      var line := BuildWhere(sc, data, filter, queryArgs, queryCountArgs, nesting);
      if line.Failure? {
        return Failure(line.error);
      }
      inWhere := inWhere + [line.value];
    }
    ghost var filtered := ListArgs(queryArgs, queryCountArgs);
    assert AddFilters(sc, data, 0, [], args, nesting) == Success((inWhere, filtered));

    var policy := GetPolicyFilter(sc, "select", data.indexSource, nesting, rel.policies);
    if policy.Failure? {
      return Failure(policy.error);
    }
    inWhere := inWhere + if |policy.value| != 0 then [PolicyLine(policy.value)] else [];
    var where := ReplaceFirstAnd(RenderAll(inWhere));

    var inSelect: seq<Item> := [];
    for i := 0 to |data.expressions|
      invariant AddExpressions(sc, data, 0, [], filtered, nesting)
             == AddExpressions(sc, data, i, inSelect, ListArgs(queryArgs, queryCountArgs), nesting)
    {
      var item := BuildExpression(sc, data, data.expressions[i], i, queryArgs, queryCountArgs, nesting);
      if item.Failure? {
        return Failure(item.error);
      }
      inSelect := inSelect + [item.value];
    }

    var recordIds := if nesting == 0 then RecordIdIndexes(data, joined.value.0) else {};
    var query := Select(inSelect, recordIds, data.relationId, data.indexSource, nesting, joined.value.1, where);
    var queryCount := None;
    if nesting == 0 {
      queryCount := Some(Select([CountDistinct(data.indexSource)], {}, data.relationId, data.indexSource, nesting,
                                joined.value.1, where));
    }
    return Success((query, queryCount));
  }

  // a request for records: one query and its count, each with its own arguments
  method Get(sc: Cache, data: DataGet) returns (r: Result<Compiled, Error>)
    ensures r == PrepareQuery(sc, data, Args([], Some([])), 0)
  {
    var queryArgs := new ArgList();
    var queryCountArgs := new ArgList();
    var built := BuildQuery(sc, data, queryArgs, queryCountArgs, 0);
    if built.Failure? {
      return Failure(built.error);
    }
    return Success(Compiled(built.value.0, built.value.1, Args(queryArgs.items, Some(queryCountArgs.items))));
  }
}
