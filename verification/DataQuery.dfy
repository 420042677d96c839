/** Stored queries turned into data GET requests (data/data_query/data_query.go). */
module DataQuery {
  import opened Wrappers
  import opened DataRequest

  datatype Content =
    | PresetContent | SubQueryContent | TrueContent | NowDate | NowDatetime | NowTime
    | LanguageCode | LoginContent | RoleContent | OtherContent

  datatype QuerySide = QuerySide(
    brackets: int,
    value: Value,
    attributeId: Option<Id>,
    attributeIndex: int,
    attributeNested: int,
    query: Query,
    queryAggregator: Option<Aggregator>,
    content: Content,
    presetId: Id,
    roleId: Id,
    nowOffset: int)

  datatype QueryFilter = QueryFilter(connector: Connector, operator: Operator, side0: QuerySide, side1: QuerySide)

  datatype Query = Query(relationId: Id, joins: seq<Join>, filters: seq<QueryFilter>)

  datatype QueryColumn = QueryColumn(
    attributeId: Id,
    index: int,
    groupBy: bool,
    distincted: bool,
    aggregator: Option<Aggregator>,
    subQuery: bool,
    query: Query)

  // what the conversion reads besides the query: the login, its roles, preset records and the clock
  datatype Context = Context(
    loginId: int,
    languageCode: string,
    roleIds: Option<set<Id>>,
    presetRecordIds: map<Id, int>,
    now: int)

  const DAY := 86400

  function SideValue(s: QuerySide, ctx: Context): Value {
    match s.content
    case PresetContent => Number(if s.presetId in ctx.presetRecordIds then ctx.presetRecordIds[s.presetId] else 0)
    case TrueContent => Bool(true)
    case NowDate => Number(ctx.now - ctx.now % DAY + s.nowOffset)
    case NowDatetime => Number(ctx.now + s.nowOffset)
    case NowTime => Number(ctx.now % DAY + s.nowOffset)
    case LanguageCode => Text(ctx.languageCode)
    case LoginContent => Number(ctx.loginId)
    case RoleContent => Bool(ctx.roleIds.Some? && s.roleId in ctx.roleIds.value)
    case _ => s.value
  }

  function ConvertSide(s: QuerySide, ctx: Context): Side
    decreases s, 2
  {
    Side(s.attributeId, s.attributeIndex, s.attributeNested, s.brackets, None,
         if s.content.SubQueryContent?
         then ConvertSubQuery(s.query, s.queryAggregator, s.attributeId, s.attributeIndex, ctx) else EMPTY_GET,
         SideValue(s, ctx))
  }

  function ConvertSubQuery(q: Query, aggregator: Option<Aggregator>, attributeId: Option<Id>, index: int,
                           ctx: Context): DataGet
    decreases q, 1
  {
    var expr := Expression(attributeId, None, index, false, EMPTY_GET, aggregator, false, false, false);
    DataGet(q.relationId, 0, q.joins, [expr], ConvertFilters(q.filters, 0, ctx))
  }

  // filter i of a list: converted, with the brackets that enclose the whole list
  function ConvertFilterAt(filters: seq<QueryFilter>, i: nat, ctx: Context): Filter
    requires i < |filters|
    decreases filters, 0, 0
  {
    var f := filters[i];
    assert f.side0 < f && f.side1 < f;
    var side0, side1 := ConvertSide(f.side0, ctx), ConvertSide(f.side1, ctx);
    Filter(f.connector, f.operator,
           side0.(brackets := f.side0.brackets + if i == 0 then 1 else 0),
           side1.(brackets := f.side1.brackets + if i == |filters| - 1 then 1 else 0))
  }

  function ConvertFilters(filters: seq<QueryFilter>, i: nat, ctx: Context): (r: seq<Filter>)
    requires i <= |filters|
    ensures |r| == |filters| - i
    ensures forall k :: 0 <= k < |r| ==> r[k] == ConvertFilterAt(filters, i + k, ctx)
    decreases filters, 1, |filters| - i
  {
    if i == |filters| then [] else [ConvertFilterAt(filters, i, ctx)] + ConvertFilters(filters, i + 1, ctx)
  }

  function ConvertColumnToExpression(column: QueryColumn, ctx: Context): Expression {
    var expr := Expression(Some(column.attributeId), None, column.index, false, EMPTY_GET, None,
                           column.distincted, column.groupBy, false);
    if !column.subQuery then expr
    else
      // the aggregation is done over the sub query
      Expression(None, None, 0, false,
                 DataGet(column.query.relationId, 0, column.query.joins, [expr],
                     ConvertFilters(column.query.filters, 0, ctx)),
                 column.aggregator, false, false, false)
  }

  // the conversion as the program does it: a list filled in a loop, sub queries converted on the way
  method ConvertQueryToDataFilter(filters: seq<QueryFilter>, ctx: Context) returns (out: seq<Filter>)
    ensures out == ConvertFilters(filters, 0, ctx)
    decreases filters, 3
  {
    out := [];
    for i := 0 to |filters|
      invariant |out| == i
      invariant forall k :: 0 <= k < i ==> out[k] == ConvertFilterAt(filters, k, ctx)
    {
      var filter := filters[i];
      assert filter.side0 < filter && filter.side1 < filter;
      var side0 := ProcessSide(filter.side0, ctx);
      var side1 := ProcessSide(filter.side1, ctx);
      if i == 0 {
        side0 := side0.(brackets := side0.brackets + 1);
      }
      if i == |filters| - 1 {
        side1 := side1.(brackets := side1.brackets + 1);
      }
      out := out + [Filter(filter.connector, filter.operator, side0, side1)];
    }
  }

  method ProcessSide(side: QuerySide, ctx: Context) returns (out: Side)
    ensures out == ConvertSide(side, ctx)
    decreases side, 2
  {
    out := Side(side.attributeId, side.attributeIndex, side.attributeNested, side.brackets, None, EMPTY_GET,
           SideValue(side, ctx));
    if side.content.SubQueryContent? {
      var filters := ConvertQueryToDataFilter(side.query.filters, ctx);
      var expr := Expression(side.attributeId, None, side.attributeIndex, false, EMPTY_GET, side.queryAggregator,
                             false, false, false);
      out := out.(query := DataGet(side.query.relationId, 0, side.query.joins, [expr], filters));
    }
  }
}
