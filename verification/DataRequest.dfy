/** The data GET request tree (types/types_data.go): joins, expressions and filters, where both
    expressions and filter sides can hold a whole sub request. */
module DataRequest {
  import opened Wrappers

  // a UUID; the nil UUID marks an absent reference
  type Id = nat

  const NIL: Id := 0

  // values a filter side can carry; Wildcard(v) is v printed between two percent signs
  datatype Value =
    | Nil
    | Bool(b: bool)
    | Text(s: string)
    | PgText(s: string)
    | Number(n: int)
    | Wildcard(v: Value)

  // connectors, operators and aggregators are free text in a request; the last value of each type
  // stands for a text the program does not know
  datatype JoinConnector = InnerJoin | LeftJoin | RightJoin | FullJoin | CrossJoin | BadJoin

  datatype Connector = ConnectAnd | ConnectOr | BadConnector

  datatype Operator =
    | Equal | NotEqual | Less | Greater | LessEqual | GreaterEqual | IsNull | IsNotNull
    | Like | ILike | NotLike | NotILike | EqualAny | NotEqualAll | Contains | ContainedIn | Overlaps | Matches
    | BadOperator

  datatype Aggregator = ArrayAgg | Avg | Count | JsonAgg | List | Max | Min | Sum | Record | BadAggregator(name: string)

  datatype Join = Join(attributeId: Id, connector: JoinConnector, index: int, indexFrom: int)

  datatype Side = Side(
    attributeId: Option<Id>,
    attributeIndex: int,
    attributeNested: int,
    brackets: int,
    ftsDict: Option<string>,
    query: DataGet,
    value: Value)

  datatype Filter = Filter(connector: Connector, operator: Operator, side0: Side, side1: Side)

  datatype Expression = Expression(
    attributeId: Option<Id>,
    attributeIdNm: Option<Id>,
    index: int,
    outsideIn: bool,
    query: DataGet,
    aggregator: Option<Aggregator>,
    distincted: bool,
    groupBy: bool,
    returnNull: bool)

  datatype DataGet = DataGet(
    relationId: Id,
    indexSource: int,
    joins: seq<Join>,
    expressions: seq<Expression>,
    filters: seq<Filter>)

  const EMPTY_GET := DataGet(NIL, 0, [], [], [])

  predicate IsArrayOperator(operator: Operator) {
    operator.EqualAny? || operator.NotEqualAll?
  }

  predicate IsLikeOperator(operator: Operator) {
    operator.Like? || operator.ILike? || operator.NotLike? || operator.NotILike?
  }

  predicate IsNullOperator(operator: Operator) {
    operator.IsNull? || operator.IsNotNull?
  }

  // the SQL argument a user value is sent as
  function ArgumentOf(operator: Operator, value: Value): Value {
    if IsLikeOperator(operator) then
      Wildcard(if value.PgText? then Text(value.s) else value)
    else if value.Bool? then
      Text(if value.b then "true" else "false")
    else
      value
  }
}
