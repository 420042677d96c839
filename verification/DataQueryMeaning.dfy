/** A converted query stays one block: what is appended to it later is a conjunct of all of it. */
module DataQueryMeaning {
  import opened Wrappers
  import opened DataRequest
  import opened DataQuery
  import opened SchemaCache
  import opened SqlTree
  import opened QueryCompiler
  import opened WhereGrammar
  import opened WhereMeaning

  function PairsOfQuery(filters: seq<QueryFilter>): seq<Pair> {
    seq(|filters|, i requires 0 <= i < |filters| => Pair(filters[i].side0.brackets, filters[i].side1.brackets))
  }

  // closing one more bracket at the end closes the one that was open before
  lemma {:induction false} NestedInside(ps: seq<Pair>, depth: nat)
    requires ps != [] && ps[|ps| - 1].closes >= 0
    requires Nested(ps, depth)
    ensures Nested(ps[|ps| - 1 := Pair(ps[|ps| - 1].opens, ps[|ps| - 1].closes + 1)], depth + 1)
  {
    var n := |ps| - 1;
    var more := ps[n := Pair(ps[n].opens, ps[n].closes + 1)];
    if n > 0 {
      var after := depth + AtLeast0(ps[0].opens) - AtLeast0(ps[0].closes);
      NestedInside(ps[1..], after);
      assert more[1..] == ps[1..][n - 1 := Pair(ps[n].opens, ps[n].closes + 1)];
    } else {
      assert more[1..] == ps[1..] == [];
    }
  }

  lemma EnclosedIsNested(ps: seq<Pair>, enclosed: seq<Pair>)
    requires ps != [] && ps[0].opens >= 0 && ps[|ps| - 1].closes >= 0
    requires Nested(ps, 0)
    requires |enclosed| == |ps|
    requires forall i :: 0 <= i < |ps| ==>
               enclosed[i] == Pair(ps[i].opens + (if i == 0 then 1 else 0),
                                   ps[i].closes + (if i == |ps| - 1 then 1 else 0))
    ensures Nested(enclosed, 0)
  {
    var n := |ps| - 1;
    var more := ps[n := Pair(ps[n].opens, ps[n].closes + 1)];
    NestedInside(ps, 0);
    assert Nested(more, 1);
    assert enclosed[1..] == more[1..];
    assert enclosed[0] == Pair(more[0].opens + 1, more[0].closes);
  }

  lemma {:induction false} NestedJoins(a: seq<Pair>, b: seq<Pair>, depth: nat)
    requires Nested(a, depth) && Nested(b, 0)
    ensures Nested(a + b, depth)
  {
    if a == [] {
      assert a + b == b;
    } else {
      assert (a + b)[0] == a[0] && (a + b)[1..] == a[1..] + b;
      NestedJoins(a[1..], b, depth + AtLeast0(a[0].opens) - AtLeast0(a[0].closes));
    }
  }

  // The first connector of a list of lines is not part of its body.
  lemma FirstConnectorIsDropped(lines: seq<WhereLine>, c: Connector)
    requires lines != [] && lines[0].FilterLine?
    ensures Body(lines[0 := lines[0].(connector := c)]) == Body(lines)
  {
    var other := lines[0 := lines[0].(connector := c)];
    RenderAllHead(lines);
    RenderAllHead(other);
    assert other[1..] == lines[1..];
  }

  ghost predicate BlockOf(block: seq<WhereLine>, filters: seq<QueryFilter>) {
    |block| == |filters| &&
    forall i :: 0 <= i < |block| ==>
      block[i].FilterLine? && block[i].connector == filters[i].connector &&
      block[i].opens == filters[i].side0.brackets && block[i].closes == filters[i].side1.brackets
  }

  // filters with a query's connectors and brackets, and one pair of brackets around them all
  ghost predicate EnclosedFilters(converted: seq<Filter>, filters: seq<QueryFilter>) {
    |converted| == |filters| &&
    forall i :: 0 <= i < |filters| ==>
      converted[i].connector == filters[i].connector &&
      converted[i].side0.brackets == filters[i].side0.brackets + (if i == 0 then 1 else 0) &&
      converted[i].side1.brackets == filters[i].side1.brackets + (if i == |filters| - 1 then 1 else 0)
  }

  lemma ConversionEncloses(filters: seq<QueryFilter>, ctx: Context)
    ensures EnclosedFilters(ConvertFilters(filters, 0, ctx), filters)
  {
    forall i | 0 <= i < |filters|
      ensures ConvertFilters(filters, 0, ctx)[i] == ConvertFilterAt(filters, i, ctx)
    {
    }
  }

  lemma ConvertedIsNested(filters: seq<QueryFilter>, converted: seq<Filter>, appended: seq<Filter>)
    requires filters != [] && EnclosedFilters(converted, filters)
    requires filters[0].side0.brackets >= 0 && filters[|filters| - 1].side1.brackets >= 0
    requires Nested(PairsOfQuery(filters), 0)
    requires Nested(PairsOfFilters(appended), 0)
    ensures Nested(PairsOfFilters(converted + appended), 0)
  {
    EnclosedIsNested(PairsOfQuery(filters), PairsOfFilters(converted));
    NestedJoins(PairsOfFilters(converted), PairsOfFilters(appended), 0);
    assert PairsOfFilters(converted + appended) == PairsOfFilters(converted) + PairsOfFilters(appended);
  }

  // the lines of the converted query and those of the appended filters
  lemma SplitBlock(filters: seq<QueryFilter>, converted: seq<Filter>, appended: seq<Filter>, own: seq<WhereLine>)
    returns (block: seq<WhereLine>, rest: seq<WhereLine>)
    requires filters != [] && EnclosedFilters(converted, filters)
    requires WrittenAs(own, converted + appended)
    ensures BlockOf(block, filters) && WrittenAs(rest, appended)
    ensures SplitInto(own, block, rest)
  {
    var n := |filters|;
    var all := converted + appended;
    rest := own[n..];
    forall i | 0 <= i < |rest|
      ensures rest[i].FilterLine? && rest[i].connector == appended[i].connector &&
              rest[i].opens == appended[i].side0.brackets && rest[i].closes == appended[i].side1.brackets
    {
      assert all[n + i] == appended[i];
    }
    block := BlockLines(filters, converted, own[..n]);
  }

  lemma BlockLines(filters: seq<QueryFilter>, converted: seq<Filter>, own: seq<WhereLine>)
    returns (block: seq<WhereLine>)
    requires EnclosedFilters(converted, filters)
    requires WrittenAs(own, converted)
    ensures BlockOf(block, filters)
    ensures SplitInto(own, block, [])
  {
    block := seq(|own|, i requires 0 <= i < |own| =>
      FilterLine(filters[i].connector, filters[i].side0.brackets, own[i].left, own[i].operator, own[i].right,
                 filters[i].side1.brackets));
  }

  // own is the block with its brackets, then the rest
  ghost predicate SplitInto(own: seq<WhereLine>, block: seq<WhereLine>, rest: seq<WhereLine>) {
    && |own| == |block| + |rest|
    && own[|block|..] == rest
    && forall i :: 0 <= i < |block| ==> block[i].FilterLine? && own[i] == EnclosedLine(block, i)
  }

  function EnclosedLine(block: seq<WhereLine>, i: nat): WhereLine
    requires i < |block| && block[i].FilterLine?
  {
    block[i].(opens := block[i].opens + (if i == 0 then 1 else 0),
              closes := block[i].closes + (if i == |block| - 1 then 1 else 0))
  }

  lemma SplitIsEnclosed(own: seq<WhereLine>, block: seq<WhereLine>, rest: seq<WhereLine>)
    requires block != [] && forall l :: l in block ==> l.FilterLine?
    requires SplitInto(own, block, rest)
    ensures own[0].FilterLine?
    ensures own[0 := own[0].(connector := ConnectAnd)] == Enclosed(block) + rest
  {
    var other, enclosed := own[0 := own[0].(connector := ConnectAnd)], Enclosed(block);
    forall i | 0 <= i < |own|
      ensures other[i] == (enclosed + rest)[i]
    {
      if i < |block| {
        assert own[i] == EnclosedLine(block, i);
      } else {
        assert own[i] == own[|block|..][i - |block|];
      }
    }
  }

  lemma SplitMeans(own: seq<WhereLine>, block: seq<WhereLine>, rest: seq<WhereLine>, v: Token -> Tri)
    requires block != [] && forall l :: l in block ==> l.FilterLine?
    requires block[0].opens >= 0 && block[|block| - 1].closes >= 0
    requires rest != [] && forall l :: l in rest ==> l.FilterLine? && l.connector.ConnectAnd?
    requires Nested(PairsOf(block), 0) && Nested(PairsOf(rest), 0)
    requires SplitInto(own, block, rest)
    ensures own[0].FilterLine?
    ensures Meaning(Body(block), v).Some? && Meaning(Body(rest), v).Some?
    ensures Meaning(Body(own), v) == Some(And3(Meaning(Body(block), v).value, Meaning(Body(rest), v).value))
  {
    SplitIsEnclosed(own, block, rest);
    FirstConnectorIsDropped(own, ConnectAnd);
    AppendedFiltersAreConjuncts(block, rest, v);
  }

  lemma SplitKeepsComparisons(own: seq<WhereLine>, block: seq<WhereLine>, rest: seq<WhereLine>)
    requires SplitInto(own, block, rest)
    requires forall i :: 0 <= i < |rest| ==> rest[i].FilterLine?
    ensures SameComparisons(block + rest, own)
  {
    forall i | 0 <= i < |own|
      ensures (block + rest)[i].FilterLine? && own[i].FilterLine? && (block + rest)[i].left == own[i].left &&
              (block + rest)[i].operator == own[i].operator && (block + rest)[i].right == own[i].right
    {
      if i < |block| {
        assert own[i] == EnclosedLine(block, i);
      } else {
        assert own[i] == own[|block|..][i - |block|];
      }
    }
  }

  lemma PairsAsWritten(lines: seq<WhereLine>, filters: seq<Filter>)
    requires WrittenAs(lines, filters)
    requires forall i :: 0 <= i < |filters| ==> filters[i].connector.ConnectAnd?
    ensures forall l :: l in lines ==> l.FilterLine? && l.connector.ConnectAnd?
    ensures PairsOf(lines) == PairsOfFilters(filters)
  {
  }

  lemma PairsOfBlock(lines: seq<WhereLine>, filters: seq<QueryFilter>)
    requires BlockOf(lines, filters)
    ensures forall l :: l in lines ==> l.FilterLine?
    ensures PairsOf(lines) == PairsOfQuery(filters)
  {
  }

  lemma ConvertedBlockMeans(
      filters: seq<QueryFilter>, converted: seq<Filter>, appended: seq<Filter>, own: seq<WhereLine>, v: Token -> Tri)
    returns (block: seq<WhereLine>, rest: seq<WhereLine>)
    requires filters != [] && appended != [] && EnclosedFilters(converted, filters)
    requires WrittenAs(own, converted + appended)
    requires filters[0].side0.brackets >= 0 && filters[|filters| - 1].side1.brackets >= 0
    requires Nested(PairsOfQuery(filters), 0)
    requires forall i :: 0 <= i < |appended| ==> appended[i].connector.ConnectAnd?
    requires Nested(PairsOfFilters(appended), 0)
    ensures BlockOf(block, filters) && WrittenAs(rest, appended)
    ensures SameComparisons(block + rest, own)
    ensures Meaning(Body(block), v).Some? && Meaning(Body(rest), v).Some?
    ensures Meaning(Body(own), v) == Some(And3(Meaning(Body(block), v).value, Meaning(Body(rest), v).value))
  {
    block, rest := SplitBlock(filters, converted, appended, own);
    PairsOfBlock(block, filters);
    PairsAsWritten(rest, appended);
    SplitKeepsComparisons(own, block, rest);
    SplitMeans(own, block, rest, v);
  }

  // For a request whose filters are a converted query followed by AND filters of the program (a record
  // filter, a date range), the WHERE clause means: the query's own filters AND the appended filters AND
  // the policy, even if the query is a chain of ORs.
  lemma ConvertedQueryIsOneConjunct(
      sc: Cache, filters: seq<QueryFilter>, ctx: Context, appended: seq<Filter>, q: DataGet,
      args: Args, nesting: nat, v: Token -> Tri)
    returns (block: seq<WhereLine>, rest: seq<WhereLine>, policy: seq<Token>)
    requires filters != [] && appended != []
    requires q.filters == ConvertFilters(filters, 0, ctx) + appended
    requires PrepareQuery(sc, q, args, nesting).Success?
    requires filters[0].side0.brackets >= 0 && filters[|filters| - 1].side1.brackets >= 0
    requires Nested(PairsOfQuery(filters), 0)
    requires forall i :: 0 <= i < |appended| ==> appended[i].connector.ConnectAnd?
    requires appended[|appended| - 1].side1.brackets >= 0
    requires Nested(PairsOfFilters(appended), 0)
    ensures BlockOf(block, filters) && WrittenAs(rest, appended)
    ensures SameComparisons(block + rest, AddFilters(sc, q, 0, [], args, nesting).value.0)
    ensures PolicyFilter(sc, "select", q.indexSource, nesting, sc.relations[q.relationId].policies) == Success(policy)
    ensures var where := PrepareQuery(sc, q, args, nesting).value.sql.where;
            where != [] && where[0].Where? &&
            Meaning(Body(block), v).Some? && Meaning(Body(rest), v).Some? &&
            Meaning(where[1..], v)
            == Some(And3(And3(Meaning(Body(block), v).value, Meaning(Body(rest), v).value), PolicyMeaning(policy, v)))
  {
    var converted := ConvertFilters(filters, 0, ctx);
    ConversionEncloses(filters, ctx);
    ConvertedIsNested(filters, converted, appended);
    assert q.filters[0] == converted[0] && q.filters[|q.filters| - 1] == appended[|appended| - 1];
    var own;
    own, policy := WhereIsFiltersAndPolicy(sc, q, args, nesting, v);
    block, rest := ConvertedBlockMeans(filters, converted, appended, own, v);
  }
}
