/** How the $n of the generated SQL match its argument lists, at any nesting depth. */
module QueryPlaceholders {
  import opened Wrappers
  import opened DataRequest
  import opened SchemaCache
  import opened SqlTree
  import opened QueryCompiler

  // ---- reference counts, read off the request alone

  // the user values a request sends as arguments, in sending order: filters before expressions
  ghost function ValuesOf(q: DataGet): seq<Value>
    decreases q, 3, 0
  {
    FilterValues(q, 0) + ExpressionValues(q, 0)
  }

  ghost function SideValues(owner: DataGet, s: Side, operator: Operator): seq<Value>
    requires s.query < owner
    decreases owner, 0, 0
  {
    if s.query.relationId != NIL then ValuesOf(s.query)
    else if s.attributeId.Some? || IsNullOperator(operator) then []
    else [ArgumentOf(operator, s.value)]
  }

  ghost function ValuesOfFilter(owner: DataGet, f: Filter): seq<Value>
    requires f.side0.query < owner && f.side1.query < owner
    decreases owner, 1, 0
  {
    SideValues(owner, f.side0, f.operator) +
    if IsNullOperator(f.operator) then [] else SideValues(owner, f.side1, f.operator)
  }

  ghost function FilterValues(q: DataGet, i: nat): seq<Value>
    requires i <= |q.filters|
    decreases q, 2, |q.filters| - i
  {
    if i == |q.filters| then [] else ValuesOfFilter(q, q.filters[i]) + FilterValues(q, i + 1)
  }

  ghost predicate IsSubQuery(e: Expression) {
    !e.returnNull && e.attributeId.None?
  }

  ghost function ValuesOfExpression(owner: DataGet, e: Expression): seq<Value>
    requires e.query < owner
    decreases owner, 1, 0
  {
    if IsSubQuery(e) then ValuesOf(e.query) else []
  }

  ghost function ExpressionValues(q: DataGet, i: nat): seq<Value>
    requires i <= |q.expressions|
    decreases q, 2, |q.expressions| - i
  {
    if i == |q.expressions| then [] else ValuesOfExpression(q, q.expressions[i]) + ExpressionValues(q, i + 1)
  }

  // number of arguments whose sub query text is dropped because its aggregator is unknown
  ghost function Lost(q: DataGet): nat
    decreases q, 3, 0
  {
    LostInFilters(q, 0) + LostInExpressions(q, 0)
  }

  ghost function LostInSide(owner: DataGet, s: Side): nat
    requires s.query < owner
    decreases owner, 0, 0
  {
    if s.query.relationId != NIL then Lost(s.query) else 0
  }

  ghost function LostInFilter(owner: DataGet, f: Filter): nat
    requires f.side0.query < owner && f.side1.query < owner
    decreases owner, 1, 0
  {
    LostInSide(owner, f.side0) + if IsNullOperator(f.operator) then 0 else LostInSide(owner, f.side1)
  }

  ghost function LostInFilters(q: DataGet, i: nat): nat
    requires i <= |q.filters|
    decreases q, 2, |q.filters| - i
  {
    if i == |q.filters| then 0 else LostInFilter(q, q.filters[i]) + LostInFilters(q, i + 1)
  }

  ghost predicate KnownAggregator(e: Expression) {
    e.aggregator.None? || !e.aggregator.value.BadAggregator?
  }

  ghost function LostInExpression(owner: DataGet, e: Expression): nat
    requires e.query < owner
    decreases owner, 1, 0
  {
    if !IsSubQuery(e) then 0 else if KnownAggregator(e) then Lost(e.query) else |ValuesOf(e.query)|
  }

  ghost function LostInExpressions(q: DataGet, i: nat): nat
    requires i <= |q.expressions|
    decreases q, 2, |q.expressions| - i
  {
    if i == |q.expressions| then 0 else LostInExpression(q, q.expressions[i]) + LostInExpressions(q, i + 1)
  }

  // ---- multisets of numbers

  // lo + 1 .. hi, once each
  ghost function Numbers(lo: nat, hi: nat): multiset<nat>
    requires lo <= hi
  {
    multiset(Counting(lo, hi))
  }

  ghost function Counting(lo: nat, hi: nat): seq<nat>
    requires lo <= hi
  {
    seq(hi - lo, i => lo + 1 + i)
  }

  lemma {:induction false} NumbersOnce(lo: nat, hi: nat, n: nat)
    requires lo <= hi
    ensures Numbers(lo, hi)[n] == if lo < n <= hi then 1 else 0
    decreases hi
  {
    if lo < hi {
      NumbersOnce(lo, hi - 1, n);
      assert Counting(lo, hi) == Counting(lo, hi - 1) + [hi];
    }
  }

  lemma NumbersSize(lo: nat, hi: nat)
    requires lo <= hi
    ensures |Numbers(lo, hi)| == hi - lo
  {
    assert |Counting(lo, hi)| == hi - lo;
  }

  // ---- text accounting

  ghost function InLine(line: WhereLine): multiset<nat> {
    match line
    case FilterLine(_, _, left, _, right, _) => InComp(left) + InComp(right)
    case PolicyLine(ts) => InTokens(ts)
  }

  ghost function InLines(lines: seq<WhereLine>): multiset<nat> {
    InTokens(RenderAll(lines))
  }

  lemma {:induction false} InTokensAppend(a: seq<Token>, b: seq<Token>)
    ensures InTokens(a + b) == InTokens(a) + InTokens(b)
  {
    if a == [] {
      assert a + b == b;
    } else {
      assert (a + b)[0] == a[0] && (a + b)[1..] == a[1..] + b;
      InTokensAppend(a[1..], b);
    }
  }

  lemma {:induction false} InItemsAppend(a: seq<Item>, b: seq<Item>)
    ensures InItems(a + b) == InItems(a) + InItems(b)
  {
    if a == [] {
      assert a + b == b;
    } else {
      assert (a + b)[0] == a[0] && (a + b)[1..] == a[1..] + b;
      InItemsAppend(a[1..], b);
    }
  }

  lemma InItemsSnoc(items: seq<Item>, item: Item)
    ensures InItems(items + [item]) == InItems(items) + InItem(item)
  {
    InItemsAppend(items, [item]);
    assert InItems([item]) == InItem(item) + InItems([item][1..]);
    assert [item][1..] == [];
  }

  lemma {:induction false} RepeatHasNone(t: Token, n: int)
    requires t.Open? || t.Close?
    ensures InTokens(Repeat(t, n)) == multiset{}
  {
    if n > 0 {
      RepeatHasNone(t, n - 1);
    }
  }

  lemma FilterLineHasOperands(conn: Token, opens: seq<Token>, compare: Token, closes: seq<Token>)
    requires InToken(conn) == multiset{}
    requires InTokens(opens) == InTokens(closes) == multiset{}
    ensures InTokens([conn] + opens + [compare] + closes) == InToken(compare)
  {
    InTokensAppend([conn] + opens + [compare], closes);
    InTokensAppend([conn] + opens, [compare]);
    InTokensAppend([conn], opens);
    assert [conn][1..] == [] && [compare][1..] == [];
  }

  lemma RenderKeeps(line: WhereLine)
    ensures InTokens(Render(line)) == InLine(line)
  {
    match line
    case PolicyLine(_) =>
    case FilterLine(connector, opens, left, operator, right, closes) =>
      RepeatHasNone(Open, opens);
      RepeatHasNone(Close, closes);
      FilterLineHasOperands(if connector.ConnectAnd? then And else Or, Brackets(opens, false),
                            Compare(left, operator, right), Brackets(closes, true));
  }

  lemma {:induction false} RenderAllAppend(a: seq<WhereLine>, b: seq<WhereLine>)
    ensures RenderAll(a + b) == RenderAll(a) + RenderAll(b)
  {
    if a == [] {
      assert a + b == b;
    } else {
      assert (a + b)[0] == a[0] && (a + b)[1..] == a[1..] + b;
      RenderAllAppend(a[1..], b);
    }
  }

  lemma InLinesSnoc(lines: seq<WhereLine>, line: WhereLine)
    ensures InLines(lines + [line]) == InLines(lines) + InLine(line)
  {
    RenderAllAppend(lines, [line]);
    var rendered := Render(line);
    assert RenderAll([line]) == rendered by {
      assert [line][1..] == [] && RenderAll([]) == [];
      assert rendered + [] == rendered;
    }
    InTokensAppend(RenderAll(lines), rendered);
    RenderKeeps(line);
  }

  lemma {:induction false} ReplaceFirstAndKeeps(ts: seq<Token>)
    ensures InTokens(ReplaceFirstAnd(ts)) == InTokens(ts)
  {
    if ts != [] {
      if ts[0].And? {
        assert ([Where] + ts[1..])[1..] == ts[1..];
      } else {
        ReplaceFirstAndKeeps(ts[1..]);
        assert ([ts[0]] + ReplaceFirstAnd(ts[1..]))[1..] == ReplaceFirstAnd(ts[1..]);
      }
    }
  }

  lemma {:induction false} PolicyHasNone(ts: seq<Token>)
    requires forall t :: t in ts ==> t.And? || t.Policy?
    ensures InTokens(ts) == multiset{}
  {
    if ts != [] {
      assert ts[0] in ts;
      PolicyHasNone(ts[1..]);
    }
  }

  lemma {:induction false} JoinsHaveNone(sc: Cache, rels: map<int, Id>, joins: seq<Join>, clauses: seq<JoinClause>,
                                         nesting: nat)
    requires AddJoins(sc, rels, joins, clauses, nesting).Success?
    requires InJoins(clauses) == multiset{}
    ensures InJoins(AddJoins(sc, rels, joins, clauses, nesting).value.1) == multiset{}
    decreases joins
  {
    if joins != [] {
      if joins[0].indexFrom == -1 {
        JoinsHaveNone(sc, rels, joins[1..], clauses, nesting);
      } else {
        var added := AddJoin(sc, rels, joins[0], nesting).value;
        PolicyHasNone(added.1.policy);
        InJoinsAppend(clauses, added.1);
        JoinsHaveNone(sc, added.0, joins[1..], clauses + [added.1], nesting);
      }
    }
  }

  lemma {:induction false} InJoinsAppend(clauses: seq<JoinClause>, c: JoinClause)
    ensures InJoins(clauses + [c]) == InJoins(clauses) + InTokens(c.policy)
  {
    if clauses == [] {
      assert clauses + [c] == [c] && [c][1..] == [];
    } else {
      assert (clauses + [c])[0] == clauses[0] && (clauses + [c])[1..] == clauses[1..] + [c];
      InJoinsAppend(clauses[1..], c);
    }
  }

  // ---- steps of compilation: values appended, their placeholders emitted except for some lost ones

  // values appended to both argument lists
  function Extend(a: Args, vs: seq<Value>): Args {
    Args(a.query + vs, if a.count.Some? then Some(a.count.value + vs) else None)
  }

  lemma ExtendNothing(a: Args)
    ensures Extend(a, []) == a
  {
    assert a.query + [] == a.query;
    if a.count.Some? {
      assert a.count.value + [] == a.count.value;
    }
  }

  lemma ExtendTwice(a: Args, v: seq<Value>, w: seq<Value>)
    ensures Extend(Extend(a, v), w) == Extend(a, v + w)
  {
    assert (a.query + v) + w == a.query + (v + w);
    if a.count.Some? {
      assert (a.count.value + v) + w == a.count.value + (v + w);
    }
  }

  // m holds numbers out of lo + 1 .. lo + n, each at most once, and lost of them are missing
  ghost predicate Covers(m: multiset<nat>, lo: nat, n: nat, lost: nat) {
    && |m| + lost == n
    && forall k: nat :: k in m ==> lo < k <= lo + n && m[k] == 1
  }

  lemma CoversJoin(m1: multiset<nat>, lo: nat, n1: nat, lost1: nat, m2: multiset<nat>, n2: nat, lost2: nat)
    requires Covers(m1, lo, n1, lost1) && Covers(m2, lo + n1, n2, lost2)
    ensures Covers(m1 + m2, lo, n1 + n2, lost1 + lost2)
  {
    assert |m1 + m2| == |m1| + |m2|;
  }

  // with nothing lost, the numbers are there exactly once each
  lemma CoversExactly(m: multiset<nat>, n: nat, lost: nat)
    requires Covers(m, 0, n, lost)
    ensures m <= Numbers(0, n)
    ensures m == Numbers(0, n) <==> lost == 0
  {
    forall k: nat
      ensures m[k] <= Numbers(0, n)[k]
    {
      NumbersOnce(0, n, k);
    }
    NumbersSize(0, n);
    if lost == 0 {
      var rest := Numbers(0, n) - m;
      assert Numbers(0, n) == m + rest;
      assert |rest| == 0;
    }
  }

  // what one step did: values vs appended, numbers m written, lost of them missing
  ghost predicate Did(args: Args, after: Args, vs: seq<Value>, m: multiset<nat>, lost: nat) {
    after == Extend(args, vs) && Covers(m, |args.query|, |vs|, lost)
  }

  lemma DidNothing(args: Args)
    ensures Did(args, args, [], multiset{}, 0)
  {
    ExtendNothing(args);
  }

  lemma DidBoth(a: Args, b: Args, c: Args, v: seq<Value>, w: seq<Value>, m1: multiset<nat>, m2: multiset<nat>,
                lost1: nat, lost2: nat)
    requires Did(a, b, v, m1, lost1) && Did(b, c, w, m2, lost2)
    ensures Did(a, c, v + w, m1 + m2, lost1 + lost2)
  {
    ExtendTwice(a, v, w);
    CoversJoin(m1, |a.query|, |v|, lost1, m2, |w|, lost2);
  }

  lemma {:induction false} CompPlaceholders(
      sc: Cache, owner: DataGet, s: Side, operator: Operator, textSearch: bool, args: Args, nesting: nat)
    requires s.query < owner
    requires GetComp(sc, owner, s, operator, textSearch, args, nesting).Success?
    ensures var r := GetComp(sc, owner, s, operator, textSearch, args, nesting).value;
            Did(args, r.1, SideValues(owner, s, operator), InComp(r.0), LostInSide(owner, s))
    decreases owner, 0, 0
  {
    if s.query.relationId != NIL {
      QueryPlaceholdersAt(sc, s.query, args, nesting + 1);
    } else if s.attributeId.Some? || IsNullOperator(operator) {
      DidNothing(args);
    }
  }

  // a filter line with both sides is compiled side by side
  lemma TwoSides(sc: Cache, owner: DataGet, f: Filter, args: Args, nesting: nat)
    returns (left: (Comp, Args), right: (Comp, Args))
    requires f.side0.query < owner && f.side1.query < owner
    requires AddWhere(sc, owner, f, args, nesting).Success?
    requires !IsNullOperator(f.operator)
    ensures var textSearch := f.side0.ftsDict.Some? || f.side1.ftsDict.Some?;
            GetComp(sc, owner, f.side0, f.operator, textSearch, args, nesting) == Success(left) &&
            GetComp(sc, owner, f.side1, f.operator, textSearch, left.1, nesting) == Success(right)
    ensures var r := AddWhere(sc, owner, f, args, nesting).value;
            r.1 == right.1 && InLine(r.0) == InComp(left.0) + InComp(right.0)
  {
    var textSearch := f.side0.ftsDict.Some? || f.side1.ftsDict.Some?;
    left := GetComp(sc, owner, f.side0, f.operator, textSearch, args, nesting).value;
    right := GetComp(sc, owner, f.side1, f.operator, textSearch, left.1, nesting).value;
  }

  lemma OneSide(sc: Cache, owner: DataGet, f: Filter, args: Args, nesting: nat) returns (left: (Comp, Args))
    requires f.side0.query < owner && f.side1.query < owner
    requires AddWhere(sc, owner, f, args, nesting).Success?
    requires IsNullOperator(f.operator)
    ensures var textSearch := f.side0.ftsDict.Some? || f.side1.ftsDict.Some?;
            GetComp(sc, owner, f.side0, f.operator, textSearch, args, nesting) == Success(left)
    ensures var r := AddWhere(sc, owner, f, args, nesting).value;
            r.1 == left.1 && InLine(r.0) == InComp(left.0)
  {
    var textSearch := f.side0.ftsDict.Some? || f.side1.ftsDict.Some?;
    left := GetComp(sc, owner, f.side0, f.operator, textSearch, args, nesting).value;
  }

  lemma {:induction false} WherePlaceholders(sc: Cache, owner: DataGet, f: Filter, args: Args, nesting: nat)
    requires f.side0.query < owner && f.side1.query < owner
    requires AddWhere(sc, owner, f, args, nesting).Success?
    ensures var r := AddWhere(sc, owner, f, args, nesting).value;
            Did(args, r.1, ValuesOfFilter(owner, f), InLine(r.0), LostInFilter(owner, f))
    decreases owner, 1, 0
  {
    var textSearch := f.side0.ftsDict.Some? || f.side1.ftsDict.Some?;
    var v0, lost0 := SideValues(owner, f.side0, f.operator), LostInSide(owner, f.side0);
    if IsNullOperator(f.operator) {
      var left := OneSide(sc, owner, f, args, nesting);
      CompPlaceholders(sc, owner, f.side0, f.operator, textSearch, args, nesting);
      assert ValuesOfFilter(owner, f) == v0 by {
        assert v0 + [] == v0;
      }
      assert LostInFilter(owner, f) == lost0;
      assert Did(args, left.1, ValuesOfFilter(owner, f), InComp(left.0), LostInFilter(owner, f));
    } else {
      var left, right := TwoSides(sc, owner, f, args, nesting);
      var v1, lost1 := SideValues(owner, f.side1, f.operator), LostInSide(owner, f.side1);
      CompPlaceholders(sc, owner, f.side0, f.operator, textSearch, args, nesting);
      CompPlaceholders(sc, owner, f.side1, f.operator, textSearch, left.1, nesting);
      DidBoth(args, left.1, right.1, v0, v1, InComp(left.0), InComp(right.0), lost0, lost1);
      assert ValuesOfFilter(owner, f) == v0 + v1 && LostInFilter(owner, f) == lost0 + lost1;
      assert Did(args, right.1, ValuesOfFilter(owner, f), InComp(left.0) + InComp(right.0), LostInFilter(owner, f));
    }
  }

  lemma FiltersStep(sc: Cache, q: DataGet, i: nat, lines: seq<WhereLine>, args: Args, nesting: nat)
    returns (step: (WhereLine, Args))
    requires i < |q.filters|
    requires AddFilters(sc, q, i, lines, args, nesting).Success?
    ensures AddWhere(sc, q, FilterAt(q.filters, i), args, nesting) == Success(step)
    ensures AddFilters(sc, q, i, lines, args, nesting) == AddFilters(sc, q, i + 1, lines + [step.0], step.1, nesting)
    ensures InLines(lines + [step.0]) == InLines(lines) + InLine(step.0)
    ensures ValuesOfFilter(q, FilterAt(q.filters, i)) == ValuesOfFilter(q, q.filters[i])
    ensures LostInFilter(q, FilterAt(q.filters, i)) == LostInFilter(q, q.filters[i])
  {
    step := AddWhere(sc, q, FilterAt(q.filters, i), args, nesting).value;
    InLinesSnoc(lines, step.0);
  }

  // m is what filters i.. add to the text
  lemma {:induction false} FiltersPlaceholders(sc: Cache, q: DataGet, i: nat, lines: seq<WhereLine>, args: Args,
                                               nesting: nat)
    returns (m: multiset<nat>)
    requires i <= |q.filters|
    requires AddFilters(sc, q, i, lines, args, nesting).Success?
    ensures var r := AddFilters(sc, q, i, lines, args, nesting).value;
            InLines(r.0) == InLines(lines) + m &&
            Did(args, r.1, FilterValues(q, i), m, LostInFilters(q, i))
    decreases q, 2, |q.filters| - i
  {
    if i < |q.filters| {
      var f := FilterAt(q.filters, i);
      var step := FiltersStep(sc, q, i, lines, args, nesting);
      WherePlaceholders(sc, q, f, args, nesting);
      var rest := FiltersPlaceholders(sc, q, i + 1, lines + [step.0], step.1, nesting);
      m := InLine(step.0) + rest;
      var after := AddFilters(sc, q, i + 1, lines + [step.0], step.1, nesting).value.1;
      var v, lost := ValuesOfFilter(q, f), LostInFilter(q, f);
      DidBoth(args, step.1, after, v, FilterValues(q, i + 1), InLine(step.0), rest, lost, LostInFilters(q, i + 1));
      assert FilterValues(q, i) == v + FilterValues(q, i + 1) && LostInFilters(q, i) == lost + LostInFilters(q, i + 1);
      assert Did(args, after, FilterValues(q, i), m, LostInFilters(q, i));
    } else {
      m := multiset{};
      DidNothing(args);
    }
  }

  // the arguments an expression's sub query sees, and those seen after it
  function Inner(args: Args, nesting: nat): Args {
    if nesting == 0 then args.(count := None) else args
  }

  lemma {:induction false} ExpressionPlaceholders(sc: Cache, owner: DataGet, e: Expression, pos: nat, args: Args,
                                                  nesting: nat)
    requires e.query < owner
    requires AddExpression(sc, owner, e, pos, args, nesting).Success?
    ensures var r := AddExpression(sc, owner, e, pos, args, nesting).value;
            (nesting == 0 ==> r.1.count == args.count) &&
            Did(Inner(args, nesting), Inner(r.1, nesting), ValuesOfExpression(owner, e), InItem(r.0),
                LostInExpression(owner, e))
    decreases owner, 1, 0
  {
    if IsSubQuery(e) {
      QueryPlaceholdersAt(sc, e.query, Inner(args, nesting), nesting + 1);
    } else {
      DidNothing(Inner(args, nesting));
    }
  }

  lemma ExpressionsStep(sc: Cache, q: DataGet, i: nat, items: seq<Item>, args: Args, nesting: nat)
    returns (step: (Item, Args))
    requires i < |q.expressions|
    requires AddExpressions(sc, q, i, items, args, nesting).Success?
    ensures AddExpression(sc, q, q.expressions[i], i, args, nesting) == Success(step)
    ensures AddExpressions(sc, q, i, items, args, nesting) ==
            AddExpressions(sc, q, i + 1, items + [step.0], step.1, nesting)
    ensures InItems(items + [step.0]) == InItems(items) + InItem(step.0)
  {
    step := AddExpression(sc, q, q.expressions[i], i, args, nesting).value;
    InItemsSnoc(items, step.0);
  }

  lemma {:induction false} ExpressionsPlaceholders(sc: Cache, q: DataGet, i: nat, items: seq<Item>, args: Args,
                                                   nesting: nat)
    returns (m: multiset<nat>)
    requires i <= |q.expressions|
    requires AddExpressions(sc, q, i, items, args, nesting).Success?
    ensures var r := AddExpressions(sc, q, i, items, args, nesting).value;
            InItems(r.0) == InItems(items) + m &&
            (nesting == 0 ==> r.1.count == args.count) &&
            Did(Inner(args, nesting), Inner(r.1, nesting), ExpressionValues(q, i), m, LostInExpressions(q, i))
    decreases q, 2, |q.expressions| - i
  {
    if i < |q.expressions| {
      var e := q.expressions[i];
      var step := ExpressionsStep(sc, q, i, items, args, nesting);
      ExpressionPlaceholders(sc, q, e, i, args, nesting);
      var rest := ExpressionsPlaceholders(sc, q, i + 1, items + [step.0], step.1, nesting);
      m := InItem(step.0) + rest;
      var after := AddExpressions(sc, q, i + 1, items + [step.0], step.1, nesting).value.1;
      var v, lost := ValuesOfExpression(q, e), LostInExpression(q, e);
      DidBoth(Inner(args, nesting), Inner(step.1, nesting), Inner(after, nesting), v, ExpressionValues(q, i + 1),
              InItem(step.0), rest, lost, LostInExpressions(q, i + 1));
      assert ExpressionValues(q, i) == v + ExpressionValues(q, i + 1) &&
             LostInExpressions(q, i) == lost + LostInExpressions(q, i + 1);
      assert Did(Inner(args, nesting), Inner(after, nesting), ExpressionValues(q, i), m, LostInExpressions(q, i));
    } else {
      m := multiset{};
      DidNothing(Inner(args, nesting));
    }
  }

  // the parts of a successful compilation
  lemma {:induction false} QueryParts(sc: Cache, q: DataGet, args: Args, nesting: nat)
    returns (lines: seq<WhereLine>, mid: Args, items: seq<Item>)
    requires PrepareQuery(sc, q, args, nesting).Success?
    ensures AddFilters(sc, q, 0, [], args, nesting) == Success((lines, mid))
    ensures AddExpressions(sc, q, 0, [], mid, nesting)
         == Success((items, PrepareQuery(sc, q, args, nesting).value.args))
    ensures var c := PrepareQuery(sc, q, args, nesting).value;
            InTokens(c.sql.where) == InLines(lines) && InJoins(c.sql.joins) == multiset{} && c.sql.items == items
  {
    var rels: map<int, Id> := map[q.indexSource := q.relationId];
    JoinsHaveNone(sc, rels, q.joins, [], nesting);
    var filtered := AddFilters(sc, q, 0, [], args, nesting).value;
    lines, mid := filtered.0, filtered.1;
    var policy := PolicyFilter(sc, "select", q.indexSource, nesting, sc.relations[q.relationId].policies).value;
    PolicyHasNone(policy);
    items := AddExpressions(sc, q, 0, [], mid, nesting).value.0;
    var all := lines + if policy != [] then [PolicyLine(policy)] else [];
    ReplaceFirstAndKeeps(RenderAll(all));
    if policy != [] {
      InLinesSnoc(lines, PolicyLine(policy));
    } else {
      assert all == lines;
    }
  }

  // At any nesting level and after any arguments collected before: exactly the values of the request
  // are appended, the placeholders of the text number these values, none is used twice, and exactly
  // Lost(q) are missing. Below the main query the count arguments grow by the same values.
  lemma {:induction false} QueryPlaceholdersAt(sc: Cache, q: DataGet, args: Args, nesting: nat)
    requires PrepareQuery(sc, q, args, nesting).Success?
    ensures var c := PrepareQuery(sc, q, args, nesting).value;
            Did(Inner(args, nesting), Inner(c.args, nesting), ValuesOf(q), InSelect(c.sql), Lost(q))
    decreases q, 3, 0
  {
    var c := PrepareQuery(sc, q, args, nesting).value;
    var lines, mid, items := QueryParts(sc, q, args, nesting);
    var m1 := FiltersPlaceholders(sc, q, 0, [], args, nesting);
    var m2 := ExpressionsPlaceholders(sc, q, 0, [], mid, nesting);
    DidBoth(Inner(args, nesting), Inner(mid, nesting), Inner(c.args, nesting),
            FilterValues(q, 0), ExpressionValues(q, 0), m1, m2, LostInFilters(q, 0), LostInExpressions(q, 0));
    assert InSelect(c.sql) == m1 + m2;
  }

  // ---- main results for a data GET request

  // The arguments of the data query are the request's values. The query uses each of $1..$n exactly
  // once, n being the number of arguments, if and only if no sub query with values is dropped; none is
  // ever used twice.
  lemma DataQueryPlaceholders(sc: Cache, q: DataGet)
    requires PrepareQuery(sc, q, Args([], Some([])), 0).Success?
    ensures var c := PrepareQuery(sc, q, Args([], Some([])), 0).value;
            c.args.query == ValuesOf(q) &&
            InSelect(c.sql) <= Numbers(0, |c.args.query|) &&
            (InSelect(c.sql) == Numbers(0, |c.args.query|) <==> Lost(q) == 0)
  {
    var c := PrepareQuery(sc, q, Args([], Some([])), 0).value;
    QueryPlaceholdersAt(sc, q, Args([], Some([])), 0);
    assert [] + ValuesOf(q) == ValuesOf(q);
    CoversExactly(InSelect(c.sql), |c.args.query|, Lost(q));
  }

  // The count query has the values of the filters as its own arguments, a prefix of those of the data
  // query, although expressions go on adding arguments to the latter.
  lemma CountQueryPlaceholders(sc: Cache, q: DataGet)
    requires PrepareQuery(sc, q, Args([], Some([])), 0).Success?
    ensures var c := PrepareQuery(sc, q, Args([], Some([])), 0).value;
            c.count.Some? &&
            c.args.count == Some(FilterValues(q, 0)) &&
            FilterValues(q, 0) <= c.args.query &&
            InSelect(c.count.value) <= Numbers(0, |FilterValues(q, 0)|) &&
            (InSelect(c.count.value) == Numbers(0, |FilterValues(q, 0)|) <==> LostInFilters(q, 0) == 0)
  {
    var args := Args([], Some([]));
    var lines, mid, items := QueryParts(sc, q, args, 0);
    var m := FiltersPlaceholders(sc, q, 0, [], args, 0);
    var _ := ExpressionsPlaceholders(sc, q, 0, [], mid, 0);
    var values := FilterValues(q, 0);
    assert [] + values == values;
    var count := PrepareQuery(sc, q, args, 0).value.count.value;
    assert count.items == [CountDistinct(q.indexSource)];
    assert InItems(count.items) == InItem(CountDistinct(q.indexSource)) + InItems([]);
    assert InSelect(count) == m;
    CoversExactly(InSelect(count), |FilterValues(q, 0)|, LostInFilters(q, 0));
  }

  // ---- when nothing is lost

  // every sub query that gets compiled, at any depth, is aggregated by a known aggregator or not at all
  ghost predicate KnownEverywhere(q: DataGet) {
    && (forall e :: e in q.expressions && IsSubQuery(e) ==> KnownAggregator(e) && KnownEverywhere(e.query))
    && (forall f :: f in q.filters ==>
          (f.side0.query.relationId != NIL ==> KnownEverywhere(f.side0.query)) &&
          (f.side1.query.relationId != NIL && !IsNullOperator(f.operator) ==> KnownEverywhere(f.side1.query)))
  }

  lemma {:induction false} KnownLosesNothing(q: DataGet)
    requires KnownEverywhere(q)
    ensures Lost(q) == 0
    decreases q, 2, 0
  {
    KnownFiltersLoseNothing(q, 0);
    KnownExpressionsLoseNothing(q, 0);
  }

  lemma {:induction false} KnownFiltersLoseNothing(q: DataGet, i: nat)
    requires i <= |q.filters|
    requires KnownEverywhere(q)
    ensures LostInFilters(q, i) == 0
    decreases q, 1, |q.filters| - i
  {
    if i < |q.filters| {
      var f := q.filters[i];
      assert f in q.filters;
      if f.side0.query.relationId != NIL {
        KnownLosesNothing(f.side0.query);
      }
      if f.side1.query.relationId != NIL && !IsNullOperator(f.operator) {
        KnownLosesNothing(f.side1.query);
      }
      assert LostInFilter(q, f) == 0;
      KnownFiltersLoseNothing(q, i + 1);
    }
  }

  lemma {:induction false} KnownExpressionsLoseNothing(q: DataGet, i: nat)
    requires i <= |q.expressions|
    requires KnownEverywhere(q)
    ensures LostInExpressions(q, i) == 0
    decreases q, 1, |q.expressions| - i
  {
    if i < |q.expressions| {
      var e := q.expressions[i];
      assert e in q.expressions;
      if IsSubQuery(e) {
        KnownLosesNothing(e.query);
      }
      KnownExpressionsLoseNothing(q, i + 1);
    }
  }

  // The nine known aggregators are enough: then both queries use each of their arguments exactly once.
  lemma KnownAggregatorsUseEveryArgumentOnce(sc: Cache, q: DataGet)
    requires PrepareQuery(sc, q, Args([], Some([])), 0).Success?
    requires KnownEverywhere(q)
    ensures var c := PrepareQuery(sc, q, Args([], Some([])), 0).value;
            InSelect(c.sql) == Numbers(0, |c.args.query|) &&
            c.count.Some? && c.args.count.Some? &&
            InSelect(c.count.value) == Numbers(0, |c.args.count.value|)
  {
    KnownLosesNothing(q);
    DataQueryPlaceholders(sc, q);
    CountQueryPlaceholders(sc, q);
  }

  // An unknown aggregator over a sub query with a value: the value is sent, its placeholder is not written.
  lemma UnknownAggregatorDropsSubQuery() returns (sc: Cache, q: DataGet)
    ensures PrepareQuery(sc, q, Args([], Some([])), 0).Success?
    ensures var c := PrepareQuery(sc, q, Args([], Some([])), 0).value;
            |c.args.query| == 1 && |InSelect(c.sql)| == 0
  {
    var side := Side(None, 0, 0, 0, None, EMPTY_GET, Number(1));
    var sub := DataGet(1, 0, [], [], [Filter(ConnectAnd, Equal, side.(attributeId := Some(3)), side)]);
    var expr := Expression(None, None, 0, false, sub, Some(BadAggregator("median")), false, false, false);
    q := DataGet(1, 0, [], [expr], []);
    sc := Cache(map[2 := "m"], map[1 := Relation(2, "r", [])], map[3 := Attribute(1, "a", OtherContent, None)], map[],
          {}, None);
    var args := Args([], Some([]));
    var inner := Args([], None);
    assert q.expressions[0] == expr;
    var f := FilterAt(sub.filters, 0);
    assert sub.filters[0].side0 == side.(attributeId := Some(3)) && sub.filters[0].side1 == side;
    assert FilterValues(sub, 1) == [];
    assert ValuesOf(sub) == [Number(1)] by {
      assert ValuesOfFilter(sub, sub.filters[0]) == [Number(1)];
      assert FilterValues(sub, 0) == [Number(1)];
    }
    assert LostInExpression(q, expr) == |ValuesOf(sub)|;
    assert LostInExpressions(q, 1) == 0 && LostInExpressions(q, 0) == 1 && LostInFilters(q, 0) == 0;
    assert ExpressionValues(q, 1) == [] && ExpressionValues(q, 0) == [Number(1)] && FilterValues(q, 0) == [];
    assert AddFilters(sc, sub, 0, [], inner, 1).Success? by {
      var comp0 := GetComp(sc, sub, f.side0, f.operator, false, inner, 1).value;
      assert AddWhere(sc, sub, f, inner, 1).Success?;
      var step := AddWhere(sc, sub, f, inner, 1).value;
      assert AddFilters(sc, sub, 1, [] + [step.0], step.1, 1).Success?;
    }
    assert PrepareQuery(sc, sub, inner, 1).Success?;
    assert AddExpression(sc, q, expr, 0, args, 0).Success?;
    var step := AddExpression(sc, q, expr, 0, args, 0).value;
    assert AddExpressions(sc, q, 1, [] + [step.0], step.1, 0).Success?;
    assert AddExpressions(sc, q, 0, [], args, 0).Success?;
    assert PrepareQuery(sc, q, args, 0).Success?;
    DataQueryPlaceholders(sc, q);
    QueryPlaceholdersAt(sc, q, args, 0);
  }
}
