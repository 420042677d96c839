/** Generated SQL as a small tree. A WHERE clause is kept as the flat token sequence it is written
    as, so that what its brackets and connectors mean is decided by parsing it. */
module SqlTree {
  import opened Wrappers
  import opened DataRequest

  // one side of a comparison
  datatype Comp =
    | NoComp
    | NullLiteral
    | NotNullLiteral
    | Column(index: int, nested: int, name: string, cast: Cast)
    | Placeholder(n: nat)
    | TextSearch(dict: string, n: nat)
    | SubSelect(select: Select)
    | Bracketed(comp: Comp)

  datatype Cast = NoCast | AsText | AsTsVector

  datatype Token =
    | And
    | Or
    | Where
    | Open
    | Close
    | Compare(left: Comp, operator: Operator, right: Comp)
    | Policy(index: int, nested: int, exclude: bool, fncModule: string, fncName: string)

  // code inside a SELECT expression
  datatype Code =
    | NullCode
    | ColumnCode(index: int, nested: int, name: string)
    | SelectCode(select: Select)
    | AliasCode(pos: nat)

  datatype Item =
    | Plain(distinct: bool, code: Code, alias: nat)
    | Aggregate(fn: Aggregator, distinct: bool, code: Code, alias: nat)
    | BracketedItem(code: Code, alias: nat)
    | AggregateOver(fn: Aggregator, distinct: bool, code: Code, alias: nat)
    | FileList(attributeId: Id, index: int)
    | PartnerIds(attributeId: Id, attributeIdNm: Option<Id>, index: int, alias: nat)
    | CountDistinct(index: int)

  datatype JoinClause = JoinClause(
    connector: JoinConnector,
    relationId: Id,
    index: int,
    indexFrom: int,
    attributeId: Id,
    attributeOnSource: bool,
    policy: seq<Token>)

  datatype Select = Select(
    items: seq<Item>,
    recordIds: set<int>,
    relationId: Id,
    index: int,
    nested: int,
    joins: seq<JoinClause>,
    where: seq<Token>)

  // ---- placeholders occurring in SQL text, with multiplicity

  ghost function InComp(c: Comp): multiset<nat> {
    match c
    case Placeholder(n) => multiset{n}
    case TextSearch(_, n) => multiset{n}
    case SubSelect(s) => InSelect(s)
    case Bracketed(b) => InComp(b)
    case _ => multiset{}
  }

  ghost function InToken(t: Token): multiset<nat> {
    match t
    case Compare(l, _, r) => InComp(l) + InComp(r)
    case _ => multiset{}
  }

  ghost function InTokens(ts: seq<Token>): multiset<nat> {
    if ts == [] then multiset{} else InToken(ts[0]) + InTokens(ts[1..])
  }

  ghost function InCode(c: Code): multiset<nat> {
    match c
    case SelectCode(s) => InSelect(s)
    case _ => multiset{}
  }

  ghost function InItem(i: Item): multiset<nat> {
    match i
    case Plain(_, code, _) => InCode(code)
    case Aggregate(_, _, code, _) => InCode(code)
    case BracketedItem(code, _) => InCode(code)
    case AggregateOver(_, _, code, _) => InCode(code)
    case _ => multiset{}
  }

  ghost function InItems(items: seq<Item>): multiset<nat> {
    if items == [] then multiset{} else InItem(items[0]) + InItems(items[1..])
  }

  ghost function InJoins(joins: seq<JoinClause>): multiset<nat> {
    if joins == [] then multiset{} else InTokens(joins[0].policy) + InJoins(joins[1..])
  }

  // every $n in the text of a SELECT: its expressions, its joins and its WHERE clause
  ghost function InSelect(s: Select): multiset<nat> {
    InItems(s.items) + InJoins(s.joins) + InTokens(s.where)
  }
}
