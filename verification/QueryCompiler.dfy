/** From a data GET request to SQL and its argument lists (data/data_get.go, data/data_sql/data_sql.go).
    The functions say what the SQL and the arguments are; the methods build them the way the program
    does, appending to two shared argument lists while they recurse into sub requests. */
module QueryCompiler {
  import opened Wrappers
  import opened DataRequest
  import opened SchemaCache
  import opened SqlTree

  // arguments of the data query and, where they are collected, of the count query
  datatype Args = Args(query: seq<Value>, count: Option<seq<Value>>)

  datatype Compiled = Compiled(sql: Select, count: Option<Select>, args: Args)

  // a line of the WHERE clause
  datatype WhereLine =
    | FilterLine(connector: Connector, opens: int, left: Comp, operator: Operator, right: Comp, closes: int)
    | PolicyLine(tokens: seq<Token>)

  // ---- rendering

  function Repeat(t: Token, n: int): seq<Token> {
    if n <= 0 then [] else [t] + Repeat(t, n - 1)
  }

  function Brackets(count: int, right: bool): seq<Token> {
    Repeat(if right then Close else Open, count)
  }

  method GetBrackets(count: int, right: bool) returns (ts: seq<Token>)
    ensures ts == Brackets(count, right)
  {
    if count == 0 {
      return [];
    }
    var bracket := if right then Close else Open;
    var left := count;
    ts := [];
    while left > 0
      invariant ts + Repeat(bracket, left) == Repeat(bracket, count)
    {
      ts := ts + [bracket];
      left := left - 1;
    }
  }

  function Render(line: WhereLine): seq<Token> {
    match line
    case FilterLine(connector, opens, left, operator, right, closes) =>
      [if connector.ConnectAnd? then And else Or] + Brackets(opens, false) +
      [Compare(left, operator, right)] + Brackets(closes, true)
    case PolicyLine(tokens) => tokens
  }

  function RenderAll(lines: seq<WhereLine>): seq<Token> {
    if lines == [] then [] else Render(lines[0]) + RenderAll(lines[1..])
  }

  // the first AND anywhere in the clause becomes WHERE
  function ReplaceFirstAnd(ts: seq<Token>): seq<Token> {
    if ts == [] then [] else if ts[0].And? then [Where] + ts[1..] else [ts[0]] + ReplaceFirstAnd(ts[1..])
  }

  function GetExpression(expr: Expression, code: Code, alias: nat): Item {
    var aggregated := expr.aggregator.Some?;
    var subQuery := expr.attributeId.None?;
    var inner := if aggregated && subQuery then AliasCode(0) else code;
    if aggregated && !expr.aggregator.value.BadAggregator? then
      var distinct := expr.distincted &&
          !(expr.aggregator.value.Max? || expr.aggregator.value.Min? || expr.aggregator.value.Record?);
      if subQuery then AggregateOver(expr.aggregator.value, distinct, code, alias)
      else Aggregate(expr.aggregator.value, distinct, code, alias)
    else if subQuery then BracketedItem(inner, alias)
    else Plain(expr.distincted, inner, alias)
  }

  // ---- joins and attribute expressions

  // the joined relation is the partner of the relation it is joined from
  function AddJoin(sc: Cache, rels: map<int, Id>, join: Join, nesting: nat): Result<(map<int, Id>, JoinClause), Error> {
    if join.attributeId !in sc.attributes then Failure(UnknownAttribute(join.attributeId))
    else
      var atr := sc.attributes[join.attributeId];
      if atr.relationshipId.None? then Failure(NotARelationship)
      else
        var onSource := atr.relationId == (if join.indexFrom in rels then rels[join.indexFrom] else NIL);
        var target := if onSource then atr.relationshipId.value else atr.relationId;
        if target !in sc.relations then Failure(UnknownRelation(target))
        else if join.connector.BadJoin? then Failure(BadJoinConnector)
        else
          var policy :- PolicyFilter(sc, "select", join.index, nesting, sc.relations[target].policies);
          Success((rels[join.index := target],
                   JoinClause(join.connector, target, join.index, join.indexFrom, join.attributeId, onSource, policy)))
  }

  function AddJoins(sc: Cache, rels: map<int, Id>, joins: seq<Join>, clauses: seq<JoinClause>, nesting: nat)
    : Result<(map<int, Id>, seq<JoinClause>), Error>
    decreases joins
  {
    if joins == [] then Success((rels, clauses))
    else if joins[0].indexFrom == -1 then AddJoins(sc, rels, joins[1..], clauses, nesting)
    else
      var (rels', clause) :- AddJoin(sc, rels, joins[0], nesting);
      AddJoins(sc, rels', joins[1..], clauses + [clause], nesting)
  }

  function AddSelect(sc: Cache, expr: Expression, pos: nat, nesting: nat): Result<Item, Error>
    requires expr.attributeId.Some?
  {
    var id := expr.attributeId.value;
    if id !in sc.attributes then Failure(UnknownAttribute(id))
    else
      var atr := sc.attributes[id];
      if atr.content.Files? then Success(FileList(id, expr.index))
      else if !expr.outsideIn then Success(GetExpression(expr, ColumnCode(expr.index, nesting, atr.name), pos))
      else if atr.relationId !in sc.relations then Failure(UnknownRelation(atr.relationId))
      else if expr.attributeIdNm.Some? && expr.attributeIdNm.value !in sc.attributes then
        Failure(UnknownAttribute(expr.attributeIdNm.value))
      else Success(PartnerIds(id, expr.attributeIdNm, expr.index, pos))
  }

  // ---- what is compiled from a request

  // query filters are put into brackets of their own and always start with AND
  function FilterAt(filters: seq<Filter>, i: nat): Filter
    requires i < |filters|
  {
    var f := filters[i];
    var f0 := if i == 0 then f.(connector := ConnectAnd, side0 := f.side0.(brackets := f.side0.brackets + 1)) else f;
    if i == |filters| - 1 then f0.(side1 := f0.side1.(brackets := f0.side1.brackets + 1)) else f0
  }

  function Push(args: Args, v: Value): Args {
    Args(args.query + [v], if args.count.Some? then Some(args.count.value + [v]) else None)
  }

  function ColumnOf(sc: Cache, s: Side, operator: Operator, textSearch: bool): Result<Comp, Error>
    requires s.attributeId.Some?
  {
    var id := s.attributeId.value;
    if id !in sc.attributes then Failure(UnknownAttribute(id))
    else
      var atr := sc.attributes[id];
      var cast :=
        if textSearch then AsTsVector
        else if IsLikeOperator(operator) || atr.content.Regconfig? then AsText
        else NoCast;
      Success(Column(s.attributeIndex, s.attributeNested, atr.name, cast))
  }

  function GetComp(sc: Cache, ghost owner: DataGet, s: Side, operator: Operator, textSearch: bool, args: Args,
                   nesting: nat)
    : Result<(Comp, Args), Error>
    requires s.query < owner
    decreases owner, 0, 0
  {
    if s.query.relationId != NIL then
      var sub :- PrepareQuery(sc, s.query, args, nesting + 1);
      Success((SubSelect(sub.sql), sub.args))
    else if s.attributeId.Some? then
      var column :- ColumnOf(sc, s, operator, textSearch);
      Success((column, args))
    else if IsNullOperator(operator) then
      Success((if s.value.Nil? then NullLiteral else NotNullLiteral, args))
    else
      var pushed := Push(args, ArgumentOf(operator, s.value));
      var n := |pushed.query|;
      if s.ftsDict.Some? then
        Success((TextSearch(if s.ftsDict.value in sc.dictionaries then s.ftsDict.value else "simple", n), pushed))
      else
        Success((Placeholder(n), pushed))
  }

  function AddWhere(sc: Cache, ghost owner: DataGet, filter: Filter, args: Args, nesting: nat)
    : Result<(WhereLine, Args), Error>
    requires filter.side0.query < owner && filter.side1.query < owner
    decreases owner, 1, 0
  {
    if filter.connector.BadConnector? then Failure(BadFilterConnector)
    else if filter.operator.BadOperator? then Failure(BadFilterOperator)
    else
      var textSearch := filter.side0.ftsDict.Some? || filter.side1.ftsDict.Some?;
      var (comp0, args0) :- GetComp(sc, owner, filter.side0, filter.operator, textSearch, args, nesting);
      if IsNullOperator(filter.operator) then
        Success((FilterLine(filter.connector, filter.side0.brackets, comp0, filter.operator, NoComp,
            filter.side1.brackets), args0))
      else
        var (comp1, args1) :- GetComp(sc, owner, filter.side1, filter.operator, textSearch, args0, nesting);
        var right := if IsArrayOperator(filter.operator) then Bracketed(comp1) else comp1;
        Success((FilterLine(filter.connector, filter.side0.brackets, comp0, filter.operator, right,
            filter.side1.brackets), args1))
  }

  // filters i.. appended to the lines collected so far
  function AddFilters(sc: Cache, data: DataGet, i: nat, lines: seq<WhereLine>, args: Args, nesting: nat)
    : Result<(seq<WhereLine>, Args), Error>
    requires i <= |data.filters|
    decreases data, 2, |data.filters| - i
  {
    if i == |data.filters| then Success((lines, args))
    else
      var (line, args') :- AddWhere(sc, data, FilterAt(data.filters, i), args, nesting);
      AddFilters(sc, data, i + 1, lines + [line], args', nesting)
  }

  // expressions of the main query keep out of the arguments of the count query
  function AddExpression(sc: Cache, ghost owner: DataGet, expr: Expression, pos: nat, args: Args, nesting: nat)
    : Result<(Item, Args), Error>
    requires expr.query < owner
    decreases owner, 1, 0
  {
    if expr.returnNull then
      Success((GetExpression(expr, NullCode, pos), args))
    else if expr.attributeId.None? then
      var inner := Args(args.query, if nesting == 0 then None else args.count);
      var sub :- PrepareQuery(sc, expr.query, inner, nesting + 1);
      Success((GetExpression(expr, SelectCode(sub.sql), pos),
               Args(sub.args.query, if nesting == 0 then args.count else sub.args.count)))
    else
      var item :- AddSelect(sc, expr, pos, nesting);
      Success((item, args))
  }

  function AddExpressions(sc: Cache, data: DataGet, i: nat, items: seq<Item>, args: Args, nesting: nat)
    : Result<(seq<Item>, Args), Error>
    requires i <= |data.expressions|
    decreases data, 2, |data.expressions| - i
  {
    if i == |data.expressions| then Success((items, args))
    else
      var (item, args') :- AddExpression(sc, data, data.expressions[i], i, args, nesting);
      AddExpressions(sc, data, i + 1, items + [item], args', nesting)
  }

  // relation indexes whose record IDs are selected: none are reliable once an aggregation is
  // used, except those of relations with a record aggregation
  function RecordIdIndexes(data: DataGet, rels: map<int, Id>): set<int> {
    var grouped :=
      set e | e in data.expressions && !e.returnNull && e.attributeId.Some? && e.aggregator.Some? :: e.index;
    var kept :=
      set e | e in data.expressions && !e.returnNull && e.attributeId.Some? && e.aggregator == Some(Record) :: e.index;
    set index | index in rels && (grouped == {} || index in kept)
  }

  predicate Denied(sc: Cache, e: Expression) {
    e.attributeId.Some? && !AuthorizedAttribute(sc, e.attributeId.value, 1)
  }

  function PrepareQuery(sc: Cache, data: DataGet, args: Args, nesting: nat): Result<Compiled, Error>
    decreases data, 3, 0
  {
    if exists e :: e in data.expressions && Denied(sc, e) then Failure(Unauthorized)
    else if data.relationId !in sc.relations then Failure(UnknownRelation(data.relationId))
    else if sc.relations[data.relationId].moduleId !in sc.modules then
      Failure(UnknownModule(sc.relations[data.relationId].moduleId))
    else
      var (rels, joins) :- AddJoins(sc, map[data.indexSource := data.relationId], data.joins, [], nesting);
      var (lines, args1) :- AddFilters(sc, data, 0, [], args, nesting);
      var policy :- PolicyFilter(sc, "select", data.indexSource, nesting, sc.relations[data.relationId].policies);
      var where := ReplaceFirstAnd(RenderAll(lines + if policy != [] then [PolicyLine(policy)] else []));
      var (items, args2) :- AddExpressions(sc, data, 0, [], args1, nesting);
      Success(Compiled(
                Select(items, if nesting == 0 then RecordIdIndexes(data, rels) else {},
                       data.relationId, data.indexSource, nesting, joins, where),
                if nesting == 0
                then Some(Select([CountDistinct(data.indexSource)], {}, data.relationId, data.indexSource, nesting,
                    joins, where))
                else None,
                args2))
  }
}
