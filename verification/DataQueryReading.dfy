/** What a stored query asks for, read off the request it is converted to, at every depth
    (data/data_query/data_query.go). */
module DataQueryReading {
  import opened Wrappers
  import opened DataRequest
  import opened DataQuery

  // the first second of the day of a time
  predicate IsMidnightOf(midnight: int, now: int) {
    midnight % 86400 == 0 && midnight <= now < midnight + 86400
  }

  // the value that a stored side stands for
  ghost predicate ValueStands(s: QuerySide, v: Value, ctx: Context) {
    match s.content
    case PresetContent =>
      if exists id :: (s.presetId, id) in ctx.presetRecordIds.Items then
        v.Number? && (s.presetId, v.n) in ctx.presetRecordIds.Items
      else
        v == Number(0)
    case TrueContent => v == Bool(true)
    case NowDate => v.Number? && IsMidnightOf(v.n - s.nowOffset, ctx.now)
    case NowDatetime => v == Number(ctx.now + s.nowOffset)
    // the time since midnight
    case NowTime => v.Number? && IsMidnightOf(ctx.now - (v.n - s.nowOffset), ctx.now)
    case LanguageCode => v == Text(ctx.languageCode)
    case LoginContent => v == Number(ctx.loginId)
    case RoleContent => v.Bool? && (v.b <==> exists roles :: ctx.roleIds == Some(roles) && s.roleId in roles)
    case SubQueryContent => v == s.value
    case OtherContent => v == s.value
  }

  // the side of a request stands for a stored side; more is the number of brackets that it has besides its own
  ghost predicate SideStands(s: QuerySide, side: Side, more: int, ctx: Context)
    decreases s, 2
  {
    && side.attributeId == s.attributeId && side.attributeIndex == s.attributeIndex
    && side.attributeNested == s.attributeNested && side.ftsDict.None?
    && side.brackets - s.brackets == more
    && ValueStands(s, side.value, ctx)
    && if s.content.SubQueryContent? then
         SubQueryStands(s.query, s.queryAggregator, s.attributeId, s.attributeIndex, side.query, ctx)
       else side.query == EMPTY_GET
  }

  // a sub query reads the attribute of its side, aggregated as the side says, under the stored filters
  ghost predicate SubQueryStands(q: Query, aggregator: Option<Aggregator>, attributeId: Option<Id>, index: int,
                                 data: DataGet, ctx: Context)
    decreases q, 1
  {
    && data.relationId == q.relationId && data.indexSource == 0 && data.joins == q.joins
    && |data.expressions| == 1 && ReadsPlainly(data.expressions[0], attributeId, index)
    && data.expressions[0].aggregator == aggregator
    && !data.expressions[0].distincted && !data.expressions[0].groupBy
    && FiltersStand(q.filters, data.filters, ctx)
  }

  // an expression that reads an attribute of the index itself, not from the outside
  predicate ReadsPlainly(e: Expression, attributeId: Option<Id>, index: int) {
    e.attributeId == attributeId && e.index == index && e.attributeIdNm.None? && !e.outsideIn && !e.returnNull
  }

  // filters stand for the stored ones in their order, with one more bracket before the first and after the last
  ghost predicate FiltersStand(filters: seq<QueryFilter>, out: seq<Filter>, ctx: Context)
    decreases filters, 0
  {
    && |out| == |filters|
    && forall i :: 0 <= i < |filters| ==>
         && out[i].connector == filters[i].connector && out[i].operator == filters[i].operator
         && (filters[i].side0 < filters[i] && SideStands(filters[i].side0, out[i].side0, if i == 0 then 1 else 0, ctx))
         && (filters[i].side1 < filters[i] &&
             SideStands(filters[i].side1, out[i].side1, if i + 1 == |filters| then 1 else 0, ctx))
  }

  // A column reads its attribute, or aggregates a sub query that reads it.
  ghost predicate ColumnStands(column: QueryColumn, e: Expression, ctx: Context) {
    if column.subQuery then
      && e.attributeId.None? && e.aggregator == column.aggregator && !e.groupBy && !e.distincted && !e.returnNull
      && e.query.relationId == column.query.relationId && e.query.indexSource == 0
      && e.query.joins == column.query.joins && FiltersStand(column.query.filters, e.query.filters, ctx)
      && |e.query.expressions| == 1 && ColumnReads(column, e.query.expressions[0])
    else
      ColumnReads(column, e)
  }

  predicate ColumnReads(column: QueryColumn, e: Expression) {
    && ReadsPlainly(e, Some(column.attributeId), column.index) && e.aggregator.None?
    && e.distincted == column.distincted && e.groupBy == column.groupBy
  }

  lemma ConvertedValueStands(s: QuerySide, ctx: Context)
    ensures ValueStands(s, SideValue(s, ctx), ctx)
  {
    assert ctx.now % 86400 == ctx.now - ctx.now / 86400 * 86400;
    assert ctx.now - ctx.now % 86400 == ctx.now / 86400 * 86400;
    assert ctx.now / 86400 * 86400 % 86400 == 0;
    if s.content.PresetContent? && s.presetId in ctx.presetRecordIds {
      assert (s.presetId, ctx.presetRecordIds[s.presetId]) in ctx.presetRecordIds.Items;
    }
  }

  lemma {:induction false} ConvertedSideStands(s: QuerySide, ctx: Context)
    ensures SideStands(s, ConvertSide(s, ctx), 0, ctx)
    decreases s, 2
  {
    ConvertedValueStands(s, ctx);
    if s.content.SubQueryContent? {
      ConvertedFiltersStand(s.query.filters, ctx);
    }
  }

  lemma MoreBrackets(s: QuerySide, side: Side, more: int, ctx: Context)
    requires SideStands(s, side, 0, ctx)
    ensures SideStands(s, side.(brackets := s.brackets + more), more, ctx)
  {
  }

  // Whatever the depth of its sub queries, the request asks for what the stored query asks for.
  lemma {:induction false} ConvertedFiltersStand(filters: seq<QueryFilter>, ctx: Context)
    ensures FiltersStand(filters, ConvertFilters(filters, 0, ctx), ctx)
    decreases filters, 0
  {
    forall i | 0 <= i < |filters|
      ensures var f, out := filters[i], ConvertFilters(filters, 0, ctx)[i];
              && out.connector == f.connector && out.operator == f.operator
              && f.side0 < f && SideStands(f.side0, out.side0, if i == 0 then 1 else 0, ctx)
              && f.side1 < f && SideStands(f.side1, out.side1, if i + 1 == |filters| then 1 else 0, ctx)
    {
      var f := filters[i];
      assert f.side0 < f && f.side1 < f;
      assert ConvertFilters(filters, 0, ctx)[i] == ConvertFilterAt(filters, i, ctx);
      ConvertedSideStands(f.side0, ctx);
      ConvertedSideStands(f.side1, ctx);
      MoreBrackets(f.side0, ConvertSide(f.side0, ctx), if i == 0 then 1 else 0, ctx);
      MoreBrackets(f.side1, ConvertSide(f.side1, ctx), if i + 1 == |filters| then 1 else 0, ctx);
    }
  }

  lemma ConvertedColumnStands(column: QueryColumn, ctx: Context)
    ensures ColumnStands(column, ConvertColumnToExpression(column, ctx), ctx)
  {
    if column.subQuery {
      ConvertedFiltersStand(column.query.filters, ctx);
    }
  }
}
