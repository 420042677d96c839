/** What a compiled query says, read off its text and the final argument list, clause by clause and at every
    nesting depth (data/data_get.go, data/data_sql/data_sql.go). */
module QueryReading {
  import opened Wrappers
  import opened DataRequest
  import opened SchemaCache
  import opened SqlTree
  import opened QueryCompiler

  // ---- joins

  // the joins of a request that are written; the source relation is not joined
  function WrittenJoins(joins: seq<Join>): seq<Join> {
    if joins == [] then []
    else (if joins[0].indexFrom == -1 then [] else [joins[0]]) + WrittenJoins(joins[1..])
  }

  // the relation that an index stands for before join n: of the latest join with this index, or the source
  function RelationOf(relationId: Id, source: int, clauses: seq<JoinClause>, n: nat, index: int): Id
    requires n <= |clauses|
  {
    if n == 0 then if index == source then relationId else NIL
    else if clauses[n - 1].index == index then clauses[n - 1].relationId
    else RelationOf(relationId, source, clauses, n - 1, index)
  }

  // A join connects by its attribute: from the relation of the attribute to the one that it refers to, whichever
  // of both is there already.
  predicate JoinReads(sc: Cache, join: Join, c: JoinClause, from: Id, nesting: int) {
    && c.connector == join.connector && c.index == join.index && c.indexFrom == join.indexFrom
    && c.attributeId == join.attributeId && c.attributeId in sc.attributes
    && sc.attributes[c.attributeId].relationshipId.Some?
    && (c.attributeOnSource <==> sc.attributes[c.attributeId].relationId == from)
    && c.relationId == (if sc.attributes[c.attributeId].relationId == from
                        then sc.attributes[c.attributeId].relationshipId.value
                        else sc.attributes[c.attributeId].relationId)
    && c.relationId in sc.relations
    && PolicyFilter(sc, "select", c.index, nesting, sc.relations[c.relationId].policies) == Success(c.policy)
  }

  predicate JoinReadAt(sc: Cache, q: DataGet, joins: seq<Join>, clauses: seq<JoinClause>, nesting: int, k: nat)
    requires k < |clauses| == |joins|
  {
    JoinReads(sc, joins[k], clauses[k], RelationOf(q.relationId, q.indexSource, clauses, k, joins[k].indexFrom),
              nesting)
  }

  predicate AllRead(sc: Cache, q: DataGet, joins: seq<Join>, clauses: seq<JoinClause>, nesting: int) {
    |clauses| == |joins| && forall k :: 0 <= k < |clauses| ==> JoinReadAt(sc, q, joins, clauses, nesting, k)
  }

  predicate JoinsRead(sc: Cache, q: DataGet, clauses: seq<JoinClause>, nesting: int) {
    AllRead(sc, q, WrittenJoins(q.joins), clauses, nesting)
  }

  // the relations of all indexes
  function RelationsOf(q: DataGet, clauses: seq<JoinClause>): map<int, Id> {
    if clauses == [] then map[q.indexSource := q.relationId]
    else
      var n := |clauses| - 1;
      RelationsOf(q, clauses[..n])[clauses[n].index := clauses[n].relationId]
  }

  lemma {:induction false} RelationsMatch(q: DataGet, clauses: seq<JoinClause>, index: int)
    ensures var rels := RelationsOf(q, clauses);
            && RelationOf(q.relationId, q.indexSource, clauses, |clauses|, index) ==
               (if index in rels then rels[index] else NIL)
            && (index in rels <==> index == q.indexSource || exists c :: c in clauses && c.index == index)
  {
    if clauses != [] {
      var n := |clauses| - 1;
      RelationsMatch(q, clauses[..n], index);
      RelationOfBefore(q.relationId, q.indexSource, clauses[..n], clauses[n], n, index);
      assert clauses[..n] + [clauses[n]] == clauses;
    }
  }

  lemma RelationOfBefore(relationId: Id, source: int, clauses: seq<JoinClause>, c: JoinClause, n: nat, index: int)
    requires n <= |clauses|
    ensures RelationOf(relationId, source, clauses + [c], n, index) == RelationOf(relationId, source, clauses, n, index)
  {
  }

  lemma OneMoreRead(sc: Cache, q: DataGet, joins: seq<Join>, clauses: seq<JoinClause>, join: Join, c: JoinClause,
                    nesting: int)
    requires AllRead(sc, q, joins, clauses, nesting)
    requires JoinReads(sc, join, c, RelationOf(q.relationId, q.indexSource, clauses, |clauses|, join.indexFrom),
                       nesting)
    ensures AllRead(sc, q, joins + [join], clauses + [c], nesting)
  {
    var more := clauses + [c];
    forall k | 0 <= k < |more|
      ensures JoinReadAt(sc, q, joins + [join], more, nesting, k)
    {
      assert k < |clauses| ==> JoinReadAt(sc, q, joins, clauses, nesting, k);
      RelationOfBefore(q.relationId, q.indexSource, clauses, c, k, (joins + [join])[k].indexFrom);
    }
  }

  lemma CompiledJoinReads(sc: Cache, q: DataGet, clauses: seq<JoinClause>, join: Join, nesting: nat)
    requires AddJoin(sc, RelationsOf(q, clauses), join, nesting).Success?
    ensures var r := AddJoin(sc, RelationsOf(q, clauses), join, nesting).value;
            && r.0 == RelationsOf(q, clauses + [r.1])
            && JoinReads(sc, join, r.1, RelationOf(q.relationId, q.indexSource, clauses, |clauses|, join.indexFrom),
                         nesting)
  {
    RelationsMatch(q, clauses, join.indexFrom);
    var c := AddJoin(sc, RelationsOf(q, clauses), join, nesting).value.1;
    assert (clauses + [c])[..|clauses|] == clauses;
  }

  lemma NextJoinRead(sc: Cache, q: DataGet, done: seq<Join>, clauses: seq<JoinClause>, join: Join, nesting: nat)
    requires AddJoin(sc, RelationsOf(q, clauses), join, nesting).Success? && AllRead(sc, q, done, clauses, nesting)
    ensures var r := AddJoin(sc, RelationsOf(q, clauses), join, nesting).value;
            r.0 == RelationsOf(q, clauses + [r.1]) && AllRead(sc, q, done + [join], clauses + [r.1], nesting)
  {
    CompiledJoinReads(sc, q, clauses, join, nesting);
    OneMoreRead(sc, q, done, clauses, join, AddJoin(sc, RelationsOf(q, clauses), join, nesting).value.1, nesting);
  }

  lemma JoinsStep(sc: Cache, q: DataGet, done: seq<Join>, joins: seq<Join>, clauses: seq<JoinClause>, nesting: nat)
    returns (c: JoinClause)
    requires AddJoins(sc, RelationsOf(q, clauses), joins, clauses, nesting).Success?
    requires joins != [] && joins[0].indexFrom != -1 && AllRead(sc, q, done, clauses, nesting)
    ensures AllRead(sc, q, done + [joins[0]], clauses + [c], nesting)
    ensures AddJoins(sc, RelationsOf(q, clauses), joins, clauses, nesting) ==
            AddJoins(sc, RelationsOf(q, clauses + [c]), joins[1..], clauses + [c], nesting)
  {
    c := AddJoin(sc, RelationsOf(q, clauses), joins[0], nesting).value.1;
    NextJoinRead(sc, q, done, clauses, joins[0], nesting);
  }

  lemma {:induction false} CompiledJoinsRead(sc: Cache, q: DataGet, done: seq<Join>, joins: seq<Join>,
                                             clauses: seq<JoinClause>, nesting: nat)
    requires AddJoins(sc, RelationsOf(q, clauses), joins, clauses, nesting).Success?
    requires AllRead(sc, q, done, clauses, nesting)
    ensures var r := AddJoins(sc, RelationsOf(q, clauses), joins, clauses, nesting).value;
            AllRead(sc, q, done + WrittenJoins(joins), r.1, nesting) && r.0 == RelationsOf(q, r.1)
    decreases joins
  {
    if joins == [] {
      assert done + WrittenJoins(joins) == done;
    } else if joins[0].indexFrom == -1 {
      CompiledJoinsRead(sc, q, done, joins[1..], clauses, nesting);
      assert WrittenJoins(joins) == WrittenJoins(joins[1..]);
    } else {
      var c := JoinsStep(sc, q, done, joins, clauses, nesting);
      CompiledJoinsRead(sc, q, done + [joins[0]], joins[1..], clauses + [c], nesting);
      Associate(done, joins[0], WrittenJoins(joins[1..]));
    }
  }

  lemma Associate(done: seq<Join>, join: Join, rest: seq<Join>)
    ensures done + ([join] + rest) == (done + [join]) + rest
  {
  }

  // ---- comparisons

  // the comparisons of a clause, in their order
  function Comparisons(ts: seq<Token>): (cs: seq<Token>)
    ensures forall k :: 0 <= k < |cs| ==> cs[k].Compare?
  {
    if ts == [] then [] else (if ts[0].Compare? then [ts[0]] else []) + Comparisons(ts[1..])
  }

  lemma {:induction false} ComparisonsJoin(a: seq<Token>, b: seq<Token>)
    ensures Comparisons(a + b) == Comparisons(a) + Comparisons(b)
  {
    if a == [] {
      assert a + b == b;
    } else {
      assert (a + b)[0] == a[0] && (a + b)[1..] == a[1..] + b;
      ComparisonsJoin(a[1..], b);
    }
  }

  lemma {:induction false} NoComparisons(ts: seq<Token>)
    requires forall t :: t in ts ==> !t.Compare?
    ensures Comparisons(ts) == []
  {
    if ts != [] {
      assert ts[0] in ts;
      NoComparisons(ts[1..]);
    }
  }

  lemma {:induction false} BracketsOnly(t: Token, n: int)
    ensures forall x :: x in Repeat(t, n) ==> x == t
  {
    if n > 0 {
      BracketsOnly(t, n - 1);
    }
  }

  lemma LineCompares(connector: Token, opens: seq<Token>, compare: Token, closes: seq<Token>)
    requires compare.Compare? && !connector.Compare?
    requires forall t :: t in opens || t in closes ==> !t.Compare?
    ensures Comparisons([connector] + opens + [compare] + closes) == [compare]
  {
    NoComparisons(opens);
    NoComparisons(closes);
    ComparisonsJoin([connector] + opens + [compare], closes);
    ComparisonsJoin([connector] + opens, [compare]);
    ComparisonsJoin([connector], opens);
    assert [connector][1..] == [] && [compare][1..] == [];
  }

  function CompareOf(line: WhereLine): Token
    requires line.FilterLine?
  {
    Compare(line.left, line.operator, line.right)
  }

  function ComparesOf(lines: seq<WhereLine>): (cs: seq<Token>)
    ensures |cs| <= |lines|
  {
    if lines == [] then []
    else (if lines[0].FilterLine? then [CompareOf(lines[0])] else []) + ComparesOf(lines[1..])
  }

  lemma {:induction false} ComparesAt(lines: seq<WhereLine>, i: nat)
    requires i < |lines| && forall l :: l in lines ==> l.FilterLine?
    ensures |ComparesOf(lines)| == |lines| && ComparesOf(lines)[i] == CompareOf(lines[i])
  {
    if |lines| > 1 {
      ComparesAt(lines[1..], if i == 0 then 0 else i - 1);
    }
  }

  lemma RenderedLine(line: WhereLine)
    requires line.FilterLine?
    ensures Comparisons(Render(line)) == [CompareOf(line)]
  {
    BracketsOnly(Open, line.opens);
    BracketsOnly(Close, line.closes);
    LineCompares(if line.connector.ConnectAnd? then And else Or, Brackets(line.opens, false), CompareOf(line),
                 Brackets(line.closes, true));
  }

  lemma {:induction false} LinesCompare(lines: seq<WhereLine>)
    requires forall l :: l in lines ==> l.FilterLine? || forall t :: t in l.tokens ==> !t.Compare?
    ensures Comparisons(RenderAll(lines)) == ComparesOf(lines)
  {
    if lines != [] {
      LinesCompare(lines[1..]);
      ComparisonsJoin(Render(lines[0]), RenderAll(lines[1..]));
      assert lines[0] in lines;
      if lines[0].FilterLine? {
        RenderedLine(lines[0]);
      } else {
        NoComparisons(lines[0].tokens);
      }
    }
  }

  lemma {:induction false} ComparesWithPolicy(lines: seq<WhereLine>, policy: seq<Token>)
    ensures ComparesOf(lines + [PolicyLine(policy)]) == ComparesOf(lines)
  {
    var all := lines + [PolicyLine(policy)];
    if lines != [] {
      assert all[0] == lines[0] && all[1..] == lines[1..] + [PolicyLine(policy)];
      ComparesWithPolicy(lines[1..], policy);
    } else {
      assert all[1..] == [];
    }
  }

  lemma {:induction false} WhereCompares(ts: seq<Token>)
    ensures Comparisons(ReplaceFirstAnd(ts)) == Comparisons(ts)
  {
    if ts != [] && !ts[0].And? {
      WhereCompares(ts[1..]);
      assert ([ts[0]] + ReplaceFirstAnd(ts[1..]))[1..] == ReplaceFirstAnd(ts[1..]);
    } else if ts != [] {
      assert ([Where] + ts[1..])[1..] == ts[1..];
    }
  }

  // ---- what a request says, and what its text says

  // a value as it is sent: LIKE in wildcards, text for truth values
  predicate SentAs(operator: Operator, value: Value, v: Value) {
    if operator in {Like, ILike, NotLike, NotILike} then
      v.Wildcard? && if value.PgText? then v.v == Text(value.s) else v.v == value
    else if value.Bool? then v.Text? && v.s == (if value.b then "true" else "false")
    else v == value
  }

  // A side is a sub query, an attribute under its index, a comparison with NULL, or the number of a value.
  ghost predicate SideReads(sc: Cache, owner: DataGet, s: Side, operator: Operator, textSearch: bool, c: Comp,
                            vs: seq<Value>, nesting: nat)
    requires s.query < owner
    decreases owner, 0
  {
    if s.query.relationId != NIL then c.SubSelect? && SelectReads(sc, s.query, c.select, vs, nesting + 1)
    else if s.attributeId.Some? then
      && c.Column? && c.index == s.attributeIndex && c.nested == s.attributeNested
      && s.attributeId.value in sc.attributes && c.name == sc.attributes[s.attributeId.value].name
      && (c.cast.AsTsVector? <==> textSearch)
      && (c.cast.AsText? <==> !textSearch && (operator in {Like, ILike, NotLike, NotILike} ||
                                              sc.attributes[s.attributeId.value].content.Regconfig?))
    else if operator in {IsNull, IsNotNull} then c == if s.value.Nil? then NullLiteral else NotNullLiteral
    else
      match c
      case Placeholder(n) => s.ftsDict.None? && 1 <= n <= |vs| && SentAs(operator, s.value, vs[n - 1])
      case TextSearch(dict, n) =>
        && s.ftsDict.Some? && 1 <= n <= |vs| && SentAs(operator, s.value, vs[n - 1])
        && (if s.ftsDict.value in sc.dictionaries then dict == s.ftsDict.value else dict == "simple")
      case _ => false
  }

  // A filter compares its first side with its second by its operator; a comparison with NULL has no second side,
  // and the second side of an array operator is in brackets.
  ghost predicate FilterReads(sc: Cache, owner: DataGet, f: Filter, t: Token, vs: seq<Value>, nesting: nat)
    requires f.side0.query < owner && f.side1.query < owner && t.Compare?
    decreases owner, 1
  {
    var textSearch := f.side0.ftsDict.Some? || f.side1.ftsDict.Some?;
    && t.operator == f.operator
    && SideReads(sc, owner, f.side0, f.operator, textSearch, t.left, vs, nesting)
    && if f.operator in {IsNull, IsNotNull} then t.right == NoComp
       else if f.operator in {EqualAny, NotEqualAll} then
         t.right.Bracketed? && SideReads(sc, owner, f.side1, f.operator, textSearch, t.right.comp, vs, nesting)
       else SideReads(sc, owner, f.side1, f.operator, textSearch, t.right, vs, nesting)
  }

  // the code of an expression: NULL, a sub query, or an attribute of its index
  ghost predicate CodeReads(sc: Cache, owner: DataGet, e: Expression, code: Code, vs: seq<Value>, nesting: nat)
    requires e.query < owner
    decreases owner, 0
  {
    if e.returnNull then code == NullCode
    else if e.attributeId.None? then code.SelectCode? && SelectReads(sc, e.query, code.select, vs, nesting + 1)
    else
      && e.attributeId.value in sc.attributes
      && code == ColumnCode(e.index, nesting, sc.attributes[e.attributeId.value].name)
  }

  // the aggregator is one that the program knows, and is the one of the expression
  predicate Aggregates(e: Expression, fn: Aggregator, distinct: bool) {
    && e.aggregator == Some(fn) && !fn.BadAggregator?
    && (distinct <==> e.distincted && fn !in {Max, Min, Record})
  }

  predicate NotAggregated(e: Expression) {
    e.aggregator.None? || e.aggregator.value.BadAggregator?
  }

  ghost predicate ItemReads(sc: Cache, owner: DataGet, e: Expression, item: Item, pos: nat, vs: seq<Value>,
                            nesting: nat)
    requires e.query < owner
    decreases owner, 1
  {
    match item
    case FileList(id, index) =>
      && !e.returnNull && e.attributeId == Some(id) && index == e.index
      && id in sc.attributes && sc.attributes[id].content.Files?
    case PartnerIds(id, nm, index, alias) =>
      && !e.returnNull && e.attributeId == Some(id) && index == e.index && alias == pos && nm == e.attributeIdNm
      && id in sc.attributes && !sc.attributes[id].content.Files? && e.outsideIn
    case Plain(distinct, code, alias) =>
      && e.attributeId.Some? && NotAggregated(e) && distinct == e.distincted && alias == pos
      && OfIndex(sc, e) && CodeReads(sc, owner, e, code, vs, nesting)
    case Aggregate(fn, distinct, code, alias) =>
      && e.attributeId.Some? && Aggregates(e, fn, distinct) && alias == pos
      && OfIndex(sc, e) && CodeReads(sc, owner, e, code, vs, nesting)
    case BracketedItem(code, alias) =>
      && e.attributeId.None? && alias == pos
      && if e.aggregator.Some? then e.aggregator.value.BadAggregator? && code == AliasCode(0)
         else CodeReads(sc, owner, e, code, vs, nesting)
    case AggregateOver(fn, distinct, code, alias) =>
      && e.attributeId.None? && Aggregates(e, fn, distinct) && alias == pos
      && CodeReads(sc, owner, e, code, vs, nesting)
    case CountDistinct(_) => false
  }

  // the attribute is read from the record of the index, not from partners or files
  predicate OfIndex(sc: Cache, e: Expression) {
    e.returnNull || (e.attributeId.Some? && e.attributeId.value in sc.attributes && !e.outsideIn &&
                     !sc.attributes[e.attributeId.value].content.Files?)
  }

  // Record IDs are selected in the main query only: of every index without any aggregation, else of those with
  // a record aggregation.
  ghost predicate RecordIdsRead(q: DataGet, s: Select, nesting: nat) {
    forall x :: x in s.recordIds <==>
      && nesting == 0 && (x == q.indexSource || exists c :: c in s.joins && c.index == x)
      && ((forall e :: e in q.expressions ==> e.returnNull || e.attributeId.None? || e.aggregator.None?) ||
          (exists e :: e in q.expressions && !e.returnNull && e.attributeId.Some? && e.aggregator == Some(Record) &&
              e.index == x))
  }

  // The query of a request: its relation, its joins, its filters in their order, its expressions in theirs.
  ghost predicate SelectReads(sc: Cache, q: DataGet, s: Select, vs: seq<Value>, nesting: nat)
    decreases q, 3
  {
    && s.relationId == q.relationId && s.index == q.indexSource && s.nested == nesting
    && JoinsRead(sc, q, s.joins, nesting) && RecordIdsRead(q, s, nesting)
    && FiltersRead(sc, q, Comparisons(s.where), vs, nesting)
    && |s.items| == |q.expressions|
    && forall i :: 0 <= i < |q.expressions| ==> ItemReads(sc, q, q.expressions[i], s.items[i], i, vs, nesting)
  }

  ghost predicate FiltersRead(sc: Cache, q: DataGet, cs: seq<Token>, vs: seq<Value>, nesting: nat)
    requires forall k :: 0 <= k < |cs| ==> cs[k].Compare?
    decreases q, 2
  {
    |cs| == |q.filters| && forall i :: 0 <= i < |q.filters| ==> FilterReads(sc, q, q.filters[i], cs[i], vs, nesting)
  }

  // ---- more arguments change nothing

  lemma {:induction false} SideStaysRead(sc: Cache, owner: DataGet, s: Side, operator: Operator, textSearch: bool,
                                         c: Comp, vs: seq<Value>, ws: seq<Value>, nesting: nat)
    requires s.query < owner && vs <= ws && SideReads(sc, owner, s, operator, textSearch, c, vs, nesting)
    ensures SideReads(sc, owner, s, operator, textSearch, c, ws, nesting)
    decreases owner, 0
  {
    if s.query.relationId != NIL {
      SelectStaysRead(sc, s.query, c.select, vs, ws, nesting + 1);
    }
  }

  lemma {:induction false} FilterStaysRead(sc: Cache, owner: DataGet, f: Filter, t: Token, vs: seq<Value>,
                                           ws: seq<Value>, nesting: nat)
    requires f.side0.query < owner && f.side1.query < owner && t.Compare? && vs <= ws
    requires FilterReads(sc, owner, f, t, vs, nesting)
    ensures FilterReads(sc, owner, f, t, ws, nesting)
    decreases owner, 1
  {
    var textSearch := f.side0.ftsDict.Some? || f.side1.ftsDict.Some?;
    SideStaysRead(sc, owner, f.side0, f.operator, textSearch, t.left, vs, ws, nesting);
    if f.operator in {EqualAny, NotEqualAll} {
      SideStaysRead(sc, owner, f.side1, f.operator, textSearch, t.right.comp, vs, ws, nesting);
    } else if f.operator !in {IsNull, IsNotNull} {
      SideStaysRead(sc, owner, f.side1, f.operator, textSearch, t.right, vs, ws, nesting);
    }
  }

  lemma {:induction false} CodeStaysRead(sc: Cache, owner: DataGet, e: Expression, code: Code, vs: seq<Value>,
                                         ws: seq<Value>, nesting: nat)
    requires e.query < owner && vs <= ws && CodeReads(sc, owner, e, code, vs, nesting)
    ensures CodeReads(sc, owner, e, code, ws, nesting)
    decreases owner, 0
  {
    if !e.returnNull && e.attributeId.None? {
      SelectStaysRead(sc, e.query, code.select, vs, ws, nesting + 1);
    }
  }

  lemma {:induction false} ItemStaysRead(sc: Cache, owner: DataGet, e: Expression, item: Item, pos: nat, vs: seq<Value>,
                                         ws: seq<Value>, nesting: nat)
    requires e.query < owner && vs <= ws && ItemReads(sc, owner, e, item, pos, vs, nesting)
    ensures ItemReads(sc, owner, e, item, pos, ws, nesting)
    decreases owner, 1
  {
    match item
    case Plain(_, code, _) => CodeStaysRead(sc, owner, e, code, vs, ws, nesting);
    case Aggregate(_, _, code, _) => CodeStaysRead(sc, owner, e, code, vs, ws, nesting);
    case BracketedItem(code, _) => if e.aggregator.None? { CodeStaysRead(sc, owner, e, code, vs, ws, nesting); }
    case AggregateOver(_, _, code, _) => CodeStaysRead(sc, owner, e, code, vs, ws, nesting);
    case _ =>
  }

  lemma {:induction false} FiltersStayRead(sc: Cache, q: DataGet, cs: seq<Token>, vs: seq<Value>, ws: seq<Value>,
                                           nesting: nat)
    requires (forall k :: 0 <= k < |cs| ==> cs[k].Compare?) && vs <= ws && FiltersRead(sc, q, cs, vs, nesting)
    ensures FiltersRead(sc, q, cs, ws, nesting)
    decreases q, 2
  {
    forall i | 0 <= i < |q.filters|
      ensures FilterReads(sc, q, q.filters[i], cs[i], ws, nesting)
    {
      FilterStaysRead(sc, q, q.filters[i], cs[i], vs, ws, nesting);
    }
  }

  lemma {:induction false} SelectStaysRead(sc: Cache, q: DataGet, s: Select, vs: seq<Value>, ws: seq<Value>,
                                           nesting: nat)
    requires vs <= ws && SelectReads(sc, q, s, vs, nesting)
    ensures SelectReads(sc, q, s, ws, nesting)
    decreases q, 3
  {
    FiltersStayRead(sc, q, Comparisons(s.where), vs, ws, nesting);
    forall i | 0 <= i < |q.expressions|
      ensures ItemReads(sc, q, q.expressions[i], s.items[i], i, ws, nesting)
    {
      ItemStaysRead(sc, q, q.expressions[i], s.items[i], i, vs, ws, nesting);
    }
  }

  // ---- compiled text reads as the request

  lemma {:induction false} CompReads(sc: Cache, owner: DataGet, s: Side, operator: Operator, textSearch: bool,
                                     args: Args, nesting: nat)
    requires s.query < owner && GetComp(sc, owner, s, operator, textSearch, args, nesting).Success?
    ensures var r := GetComp(sc, owner, s, operator, textSearch, args, nesting).value;
            SideReads(sc, owner, s, operator, textSearch, r.0, r.1.query, nesting) && args.query <= r.1.query
    decreases owner, 0
  {
    if s.query.relationId != NIL {
      QueryReads(sc, s.query, args, nesting + 1);
    } else {
      LeafReads(sc, owner, s, operator, textSearch, args, nesting);
    }
  }

  lemma LeafReads(sc: Cache, owner: DataGet, s: Side, operator: Operator, textSearch: bool, args: Args, nesting: nat)
    requires s.query < owner && s.query.relationId == NIL
    requires GetComp(sc, owner, s, operator, textSearch, args, nesting).Success?
    ensures var r := GetComp(sc, owner, s, operator, textSearch, args, nesting).value;
            SideReads(sc, owner, s, operator, textSearch, r.0, r.1.query, nesting) && args.query <= r.1.query
  {
  }

  lemma {:induction false} LineReads(sc: Cache, owner: DataGet, f: Filter, args: Args, nesting: nat)
    requires f.side0.query < owner && f.side1.query < owner && AddWhere(sc, owner, f, args, nesting).Success?
    ensures var r := AddWhere(sc, owner, f, args, nesting).value;
            r.0.FilterLine? && FilterReads(sc, owner, f, CompareOf(r.0), r.1.query, nesting) && args.query <= r.1.query
    decreases owner, 1
  {
    var textSearch := f.side0.ftsDict.Some? || f.side1.ftsDict.Some?;
    var r := AddWhere(sc, owner, f, args, nesting).value;
    CompReads(sc, owner, f.side0, f.operator, textSearch, args, nesting);
    if !IsNullOperator(f.operator) {
      var left := GetComp(sc, owner, f.side0, f.operator, textSearch, args, nesting).value;
      CompReads(sc, owner, f.side1, f.operator, textSearch, left.1, nesting);
      SideStaysRead(sc, owner, f.side0, f.operator, textSearch, left.0, left.1.query, r.1.query, nesting);
    }
  }

  // the first n lines read as the first n filters
  ghost predicate LinesRead(sc: Cache, q: DataGet, lines: seq<WhereLine>, vs: seq<Value>, nesting: nat) {
    |lines| <= |q.filters| && forall i :: 0 <= i < |lines| ==>
      lines[i].FilterLine? && FilterReads(sc, q, q.filters[i], CompareOf(lines[i]), vs, nesting)
  }

  lemma WrittenFilterReads(sc: Cache, q: DataGet, i: nat, t: Token, vs: seq<Value>, nesting: nat)
    requires i < |q.filters| && t.Compare? && FilterReads(sc, q, FilterAt(q.filters, i), t, vs, nesting)
    ensures FilterReads(sc, q, q.filters[i], t, vs, nesting)
  {
  }

  lemma OneMoreLine(sc: Cache, q: DataGet, lines: seq<WhereLine>, line: WhereLine, vs: seq<Value>, ws: seq<Value>,
                    nesting: nat)
    requires LinesRead(sc, q, lines, vs, nesting) && |lines| < |q.filters| && vs <= ws
    requires line.FilterLine? && FilterReads(sc, q, q.filters[|lines|], CompareOf(line), ws, nesting)
    ensures LinesRead(sc, q, lines + [line], ws, nesting)
  {
    forall i | 0 <= i < |lines|
      ensures FilterReads(sc, q, q.filters[i], CompareOf(lines[i]), ws, nesting)
    {
      FilterStaysRead(sc, q, q.filters[i], CompareOf(lines[i]), vs, ws, nesting);
    }
  }

  lemma {:induction false} FilterLinesRead(sc: Cache, q: DataGet, i: nat, lines: seq<WhereLine>, args: Args,
                                           nesting: nat)
    requires i == |lines| <= |q.filters| && AddFilters(sc, q, i, lines, args, nesting).Success?
    requires LinesRead(sc, q, lines, args.query, nesting)
    ensures var r := AddFilters(sc, q, i, lines, args, nesting).value;
            |r.0| == |q.filters| && LinesRead(sc, q, r.0, r.1.query, nesting) && args.query <= r.1.query
    decreases q, 2, |q.filters| - i
  {
    if i < |q.filters| {
      var (line, after) := AddWhere(sc, q, FilterAt(q.filters, i), args, nesting).value;
      LineReads(sc, q, FilterAt(q.filters, i), args, nesting);
      WrittenFilterReads(sc, q, i, CompareOf(line), after.query, nesting);
      OneMoreLine(sc, q, lines, line, args.query, after.query, nesting);
      FilterLinesRead(sc, q, i + 1, lines + [line], after, nesting);
    }
  }

  lemma {:induction false} ExpressionReads(sc: Cache, owner: DataGet, e: Expression, pos: nat, args: Args, nesting: nat)
    requires e.query < owner && AddExpression(sc, owner, e, pos, args, nesting).Success?
    ensures var r := AddExpression(sc, owner, e, pos, args, nesting).value;
            ItemReads(sc, owner, e, r.0, pos, r.1.query, nesting) && args.query <= r.1.query
    decreases owner, 1
  {
    if !e.returnNull && e.attributeId.None? {
      QueryReads(sc, e.query, Args(args.query, if nesting == 0 then None else args.count), nesting + 1);
    }
  }

  ghost predicate ItemsRead(sc: Cache, q: DataGet, items: seq<Item>, vs: seq<Value>, nesting: nat) {
    |items| <= |q.expressions| &&
    forall i :: 0 <= i < |items| ==> ItemReads(sc, q, q.expressions[i], items[i], i, vs, nesting)
  }

  lemma OneMoreItem(sc: Cache, q: DataGet, items: seq<Item>, item: Item, vs: seq<Value>, ws: seq<Value>, nesting: nat)
    requires ItemsRead(sc, q, items, vs, nesting) && |items| < |q.expressions| && vs <= ws
    requires ItemReads(sc, q, q.expressions[|items|], item, |items|, ws, nesting)
    ensures ItemsRead(sc, q, items + [item], ws, nesting)
  {
    forall i | 0 <= i < |items|
      ensures ItemReads(sc, q, q.expressions[i], items[i], i, ws, nesting)
    {
      ItemStaysRead(sc, q, q.expressions[i], items[i], i, vs, ws, nesting);
    }
  }

  lemma {:induction false} ExpressionItemsRead(sc: Cache, q: DataGet, i: nat, items: seq<Item>, args: Args,
                                               nesting: nat)
    requires i == |items| <= |q.expressions| && AddExpressions(sc, q, i, items, args, nesting).Success?
    requires ItemsRead(sc, q, items, args.query, nesting)
    ensures var r := AddExpressions(sc, q, i, items, args, nesting).value;
            |r.0| == |q.expressions| && ItemsRead(sc, q, r.0, r.1.query, nesting) && args.query <= r.1.query
    decreases q, 2, |q.expressions| - i
  {
    if i < |q.expressions| {
      var (item, after) := AddExpression(sc, q, q.expressions[i], i, args, nesting).value;
      ExpressionReads(sc, q, q.expressions[i], i, args, nesting);
      OneMoreItem(sc, q, items, item, args.query, after.query, nesting);
      ExpressionItemsRead(sc, q, i + 1, items + [item], after, nesting);
    }
  }

  lemma WhereReads(sc: Cache, q: DataGet, lines: seq<WhereLine>, policy: seq<Token>, vs: seq<Value>, nesting: nat)
    requires |lines| == |q.filters| && LinesRead(sc, q, lines, vs, nesting)
    requires forall t :: t in policy ==> t.And? || t.Policy?
    ensures FiltersRead(sc, q, Comparisons(ReplaceFirstAnd(RenderAll(
              lines + if policy != [] then [PolicyLine(policy)] else []))), vs, nesting)
  {
    var all := lines + if policy != [] then [PolicyLine(policy)] else [];
    WhereCompares(RenderAll(all));
    LinesCompare(all);
    if policy != [] {
      ComparesWithPolicy(lines, policy);
    } else {
      assert all == lines;
    }
    forall i | 0 <= i < |lines|
      ensures |ComparesOf(lines)| == |lines| && ComparesOf(lines)[i] == CompareOf(lines[i])
    {
      ComparesAt(lines, i);
    }
  }

  lemma RecordIdsAre(q: DataGet, s: Select, nesting: nat)
    requires s.recordIds == if nesting == 0 then RecordIdIndexes(q, RelationsOf(q, s.joins)) else {}
    ensures RecordIdsRead(q, s, nesting)
  {
    var plain := forall e :: e in q.expressions ==> e.returnNull || e.attributeId.None? || e.aggregator.None?;
    var grouped :=
      set e | e in q.expressions && !e.returnNull && e.attributeId.Some? && e.aggregator.Some? :: e.index;
    if e :| e in q.expressions && !(e.returnNull || e.attributeId.None? || e.aggregator.None?) {
      assert e.index in grouped;
    }
    assert plain <==> grouped == {};
    forall x
      ensures x in RelationsOf(q, s.joins) <==> x == q.indexSource || exists c :: c in s.joins && c.index == x
    {
      RelationsMatch(q, s.joins, x);
    }
  }

  // the lines that were compiled from the filters, with all arguments of the query
  lemma CompiledLinesRead(sc: Cache, q: DataGet, args: Args, nesting: nat)
    requires PrepareQuery(sc, q, args, nesting).Success?
    ensures var lines := AddFilters(sc, q, 0, [], args, nesting).value.0;
            && |lines| == |q.filters|
            && LinesRead(sc, q, lines, PrepareQuery(sc, q, args, nesting).value.args.query, nesting)
  {
    FilterLinesRead(sc, q, 0, [], args, nesting);
    var (lines, mid) := AddFilters(sc, q, 0, [], args, nesting).value;
    ExpressionItemsRead(sc, q, 0, [], mid, nesting);
    forall i | 0 <= i < |lines|
      ensures FilterReads(sc, q, q.filters[i], CompareOf(lines[i]),
                          PrepareQuery(sc, q, args, nesting).value.args.query, nesting)
    {
      FilterStaysRead(sc, q, q.filters[i], CompareOf(lines[i]), mid.query,
                      PrepareQuery(sc, q, args, nesting).value.args.query, nesting);
    }
  }

  // Main result: at every depth, the text of a compiled query says what the request says, with the numbers of its
  // values in the final argument list.
  lemma {:induction false} QueryReads(sc: Cache, q: DataGet, args: Args, nesting: nat)
    requires PrepareQuery(sc, q, args, nesting).Success?
    ensures var c := PrepareQuery(sc, q, args, nesting).value;
            SelectReads(sc, q, c.sql, c.args.query, nesting) && args.query <= c.args.query
    decreases q, 3
  {
    var c := PrepareQuery(sc, q, args, nesting).value;
    CompiledJoinsRead(sc, q, [], q.joins, [], nesting);
    assert [] + WrittenJoins(q.joins) == WrittenJoins(q.joins);
    RecordIdsAre(q, c.sql, nesting);
    FilterLinesRead(sc, q, 0, [], args, nesting);
    var mid := AddFilters(sc, q, 0, [], args, nesting).value.1;
    ExpressionItemsRead(sc, q, 0, [], mid, nesting);
    CompiledWhereReads(sc, q, args, nesting, mid);
    FiltersStayRead(sc, q, Comparisons(c.sql.where), mid.query, c.args.query, nesting);
  }

  lemma CompiledWhereReads(sc: Cache, q: DataGet, args: Args, nesting: nat, mid: Args)
    requires PrepareQuery(sc, q, args, nesting).Success? && AddFilters(sc, q, 0, [], args, nesting).value.1 == mid
    requires |AddFilters(sc, q, 0, [], args, nesting).value.0| == |q.filters|
    requires LinesRead(sc, q, AddFilters(sc, q, 0, [], args, nesting).value.0, mid.query, nesting)
    ensures FiltersRead(sc, q, Comparisons(PrepareQuery(sc, q, args, nesting).value.sql.where), mid.query, nesting)
  {
    var policy := PolicyFilter(sc, "select", q.indexSource, nesting, sc.relations[q.relationId].policies).value;
    WhereReads(sc, q, AddFilters(sc, q, 0, [], args, nesting).value.0, policy, mid.query, nesting);
  }

  // The count query counts the records of the source relation in the rows of the same joins under the same
  // conditions. There is one for the main query only.
  lemma CountReads(sc: Cache, q: DataGet, args: Args, nesting: nat)
    requires PrepareQuery(sc, q, args, nesting).Success?
    ensures var c := PrepareQuery(sc, q, args, nesting).value;
            && (c.count.Some? <==> nesting == 0)
            && (c.count.Some? ==> c.count.value == c.sql.(items := [CountDistinct(q.indexSource)], recordIds := {}))
  {
  }

  // Whatever a request reads was granted to the login.
  lemma ReadsWhatIsGranted(sc: Cache, q: DataGet, args: Args, nesting: nat, e: Expression)
    requires PrepareQuery(sc, q, args, nesting).Success? && e in q.expressions && e.attributeId.Some?
    ensures exists level :: Granted(sc, e.attributeId.value, level) && level >= 1
  {
    assert !Denied(sc, e);
    AuthorizedIffGranted(sc, e.attributeId.value, 1);
  }
}
