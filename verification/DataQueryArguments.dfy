/** Arguments of requests that come from stored queries and columns (data/data_query/data_query.go). */
module DataQueryArguments {
  import opened Wrappers
  import opened DataRequest
  import opened SchemaCache
  import opened SqlTree
  import opened QueryCompiler
  import opened QueryPlaceholders
  import opened DataQuery

  // A query whose only expression reads an attribute, or an empty query, loses nothing but in its filters.
  lemma OnlyFiltersCanLose(data: DataGet)
    requires |data.expressions| == 1 && LostInFilters(data, 0) == 0
    requires data.expressions[0].query.filters == [] && data.expressions[0].query.expressions == []
    ensures Lost(data) == 0
  {
    var e := data.expressions[0];
    var inner := e.query;
    assert FilterValues(inner, 0) == [] && ExpressionValues(inner, 0) == [] && ValuesOf(inner) == [];
    assert LostInFilters(inner, 0) == 0 && LostInExpressions(inner, 0) == 0 && Lost(inner) == 0;
    assert LostInExpression(data, e) == 0;
    assert LostInExpressions(data, 1) == 0;
  }

  // Sub queries in stored filters are never lost, at any depth and with any aggregator: they aggregate an
  // attribute.
  lemma {:induction false} StoredSubQueryLosesNothing(
      q: Query, aggregator: Option<Aggregator>, attributeId: Option<Id>, index: int, ctx: Context)
    ensures Lost(ConvertSubQuery(q, aggregator, attributeId, index, ctx)) == 0
    decreases q, 1
  {
    var data := ConvertSubQuery(q, aggregator, attributeId, index, ctx);
    StoredFiltersLoseNothing(q.filters, ctx, data, 0);
    OnlyFiltersCanLose(data);
  }

  lemma {:induction false} StoredFiltersLoseNothing(filters: seq<QueryFilter>, ctx: Context, data: DataGet, i: nat)
    requires data.filters == ConvertFilters(filters, 0, ctx) && i <= |filters|
    ensures LostInFilters(data, i) == 0
    decreases filters, 0, |filters| - i
  {
    if i < |filters| {
      var f := filters[i];
      assert f.side0 < f && f.side1 < f;
      assert data.filters[i] == ConvertFilterAt(filters, i, ctx);
      StoredSideLosesNothing(f.side0, ctx, data, data.filters[i].side0);
      StoredSideLosesNothing(f.side1, ctx, data, data.filters[i].side1);
      assert LostInFilter(data, data.filters[i]) == 0;
      StoredFiltersLoseNothing(filters, ctx, data, i + 1);
    }
  }

  lemma {:induction false} StoredSideLosesNothing(s: QuerySide, ctx: Context, owner: DataGet, side: Side)
    requires side.query == ConvertSide(s, ctx).query && side.query < owner
    ensures LostInSide(owner, side) == 0
    decreases s, 2
  {
    if s.content.SubQueryContent? {
      StoredSubQueryLosesNothing(s.query, s.queryAggregator, s.attributeId, s.attributeIndex, ctx);
    }
  }

  // A column loses arguments if and only if it aggregates a sub query with values by an aggregator that is
  // not known.
  lemma ColumnLosesByItsAggregatorOnly(owner: DataGet, column: QueryColumn, ctx: Context)
    requires ConvertColumnToExpression(column, ctx).query < owner
    ensures var e := ConvertColumnToExpression(column, ctx);
            LostInExpression(owner, e) == 0 <==> !column.subQuery || KnownAggregator(e) || ValuesOf(e.query) == []
  {
    var e := ConvertColumnToExpression(column, ctx);
    if column.subQuery {
      StoredFiltersLoseNothing(column.query.filters, ctx, e.query, 0);
      OnlyFiltersCanLose(e.query);
    }
  }

  lemma {:induction false} StoredColumnsLoseNothing(columns: seq<QueryColumn>, ctx: Context, q: DataGet, i: nat)
    requires |q.expressions| == |columns| && i <= |columns|
    requires forall k :: 0 <= k < |columns| ==>
               q.expressions[k] == ConvertColumnToExpression(columns[k], ctx) && KnownAggregator(q.expressions[k])
    ensures LostInExpressions(q, i) == 0
    decreases |columns| - i
  {
    if i < |columns| {
      assert q.expressions[i] in q.expressions;
      ColumnLosesByItsAggregatorOnly(q, columns[i], ctx);
      StoredColumnsLoseNothing(columns, ctx, q, i + 1);
    }
  }

  // A stored list, that is a query with its columns: with known aggregators on the columns, every argument
  // is used exactly once, whatever aggregators the sub queries of its filters have.
  lemma StoredListUsesEveryArgumentOnce(
      sc: Cache, filters: seq<QueryFilter>, columns: seq<QueryColumn>, ctx: Context, q: DataGet)
    requires q.filters == ConvertFilters(filters, 0, ctx) && |q.expressions| == |columns|
    requires forall k :: 0 <= k < |columns| ==>
               q.expressions[k] == ConvertColumnToExpression(columns[k], ctx) && KnownAggregator(q.expressions[k])
    requires PrepareQuery(sc, q, Args([], Some([])), 0).Success?
    ensures var c := PrepareQuery(sc, q, Args([], Some([])), 0).value;
            InSelect(c.sql) == Numbers(0, |c.args.query|)
  {
    StoredFiltersLoseNothing(filters, ctx, q, 0);
    StoredColumnsLoseNothing(columns, ctx, q, 0);
    DataQueryPlaceholders(sc, q);
  }
}
