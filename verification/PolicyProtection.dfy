/** When the policy of a relation decides what a compiled query returns: exactly if no OR of the filters
    stands outside of all brackets (data/data_get.go). */
module PolicyProtection {
  import opened Wrappers
  import opened DataRequest
  import opened SchemaCache
  import opened SqlTree
  import opened QueryCompiler
  import opened WhereGrammar
  import opened WhereMeaning

  // ---- brackets as they are compiled

  // the filters of a request as they are compiled, with brackets around all of them
  function CompiledFilters(filters: seq<Filter>): seq<Filter> {
    seq(|filters|, k requires 0 <= k < |filters| => FilterAt(filters, k))
  }

  // brackets that are open before filter i
  function DepthBefore(ps: seq<Pair>, i: nat): int
    requires i <= |ps|
  {
    if i == 0 then 0 else DepthBefore(ps, i - 1) + AtLeast0(ps[i - 1].opens) - AtLeast0(ps[i - 1].closes)
  }

  // some filter is connected by OR while no bracket is open
  ghost predicate HasOuterOr(filters: seq<Filter>) {
    exists i :: 0 < i < |filters| && filters[i].connector.ConnectOr? &&
        DepthBefore(PairsOfFilters(CompiledFilters(filters)), i) == 0
  }

  // ---- brackets as they are written

  lemma {:induction false} OrPastRepeat(t: Token, n: int, rest: seq<Token>, depth: int)
    requires t.Open? || t.Close?
    ensures OrOutside(Repeat(t, n) + rest, depth) ==
            OrOutside(rest, if t.Open? then depth + AtLeast0(n) else depth - AtLeast0(n))
  {
    if n > 0 {
      assert (Repeat(t, n) + rest)[1..] == Repeat(t, n - 1) + rest;
      OrPastRepeat(t, n - 1, rest, DepthAfterToken(t, depth));
    } else {
      assert Repeat(t, n) + rest == rest;
    }
  }

  lemma OrPastLine(lines: seq<WhereLine>, depth: int)
    requires lines != [] && lines[0].FilterLine?
    ensures OrOutside(Body(lines), depth)
         == OrOutside(RenderAll(lines[1..]), depth + AtLeast0(lines[0].opens) - AtLeast0(lines[0].closes))
  {
    var l, rest := lines[0], RenderAll(lines[1..]);
    RenderAllHead(lines);
    var closing := Brackets(l.closes, true) + rest;
    var compare := [Compare(l.left, l.operator, l.right)] + closing;
    OrPastRepeat(Open, l.opens, compare, depth);
    assert compare[1..] == closing;
    OrPastRepeat(Close, l.closes, rest, depth + AtLeast0(l.opens));
  }

  ghost predicate OuterOrFrom(lines: seq<WhereLine>, depth: int)
    requires forall l :: l in lines ==> l.FilterLine?
  {
    exists i :: 0 <= i < |lines| && lines[i].connector.ConnectOr? && depth + DepthBefore(PairsOf(lines), i) == 0
  }

  lemma {:induction false} DepthFromNext(ps: seq<Pair>, i: nat)
    requires 0 < i <= |ps|
    ensures DepthBefore(ps, i) == AtLeast0(ps[0].opens) - AtLeast0(ps[0].closes) + DepthBefore(ps[1..], i - 1)
  {
    if i > 1 {
      DepthFromNext(ps, i - 1);
    }
  }

  lemma OuterOrFromNext(lines: seq<WhereLine>, depth: int)
    requires lines != [] && forall l :: l in lines ==> l.FilterLine?
    ensures forall l :: l in lines[1..] ==> l.FilterLine?
    ensures lines[0].FilterLine?
    ensures OuterOrFrom(lines, depth) <==>
            (lines[0].connector.ConnectOr? && depth == 0) ||
            OuterOrFrom(lines[1..], depth + AtLeast0(lines[0].opens) - AtLeast0(lines[0].closes))
  {
    assert lines[0] in lines;
    var rest, after := lines[1..], depth + AtLeast0(lines[0].opens) - AtLeast0(lines[0].closes);
    assert PairsOf(lines)[1..] == PairsOf(rest);
    forall i | 0 < i < |lines|
      ensures depth + DepthBefore(PairsOf(lines), i) == after + DepthBefore(PairsOf(rest), i - 1) &&
              lines[i] == rest[i - 1]
    {
      DepthFromNext(PairsOf(lines), i);
    }
    if OuterOrFrom(rest, after) {
      var k :| 0 <= k < |rest| && rest[k].connector.ConnectOr? && after + DepthBefore(PairsOf(rest), k) == 0;
      assert lines[k + 1].connector.ConnectOr?;
    }
  }

  // An OR of filter lines is outside in the text if and only if it is outside by the count of brackets.
  lemma {:induction false} OuterOrIsWritten(lines: seq<WhereLine>, depth: int)
    requires forall l :: l in lines ==> l.FilterLine? && !l.connector.BadConnector?
    ensures OrOutside(RenderAll(lines), depth) == OuterOrFrom(lines, depth)
    decreases |lines|
  {
    if lines != [] {
      assert lines[0] in lines;
      OuterOrFromNext(lines, depth);
      OuterOrIsWritten(lines[1..], depth + AtLeast0(lines[0].opens) - AtLeast0(lines[0].closes));
      OrPastLine(lines, depth);
      OrAtHead(lines, depth);
    }
  }

  lemma OrAtHead(lines: seq<WhereLine>, depth: int)
    requires lines != [] && lines[0].FilterLine? && !lines[0].connector.BadConnector?
    ensures OrOutside(RenderAll(lines), depth) ==
            ((lines[0].connector.ConnectOr? && depth == 0) || OrOutside(Body(lines), depth))
  {
    RenderAllHead(lines);
    assert RenderAll(lines)[1..] == Body(lines);
  }

  // ---- the policy behind a readable clause

  lemma ScanPolicy(policy: seq<Token>, operandNext: bool, depth: nat)
    requires IsPolicy(policy)
    ensures Scan(policy, operandNext, depth) == Scan([], operandNext, depth)
  {
    if |policy| == 2 {
      assert policy[1..][1..] == [];
    } else if |policy| == 4 {
      assert policy[1..][1..] == policy[2..] && policy[2..][1..] == policy[3..] && policy[3..][1..] == [];
      assert Scan(policy[2..], false, depth) == Scan(policy[3..], true, depth) == Scan([], false, depth);
      assert Scan(policy[1..], true, depth) == Scan(policy[2..], false, depth);
    }
  }

  lemma {:induction false} ScanBeforePolicy(ts: seq<Token>, policy: seq<Token>, operandNext: bool, depth: nat)
    requires IsPolicy(policy)
    ensures Scan(ts + policy, operandNext, depth) == Scan(ts, operandNext, depth)
    decreases |ts|
  {
    if ts == [] {
      assert ts + policy == policy;
      ScanPolicy(policy, operandNext, depth);
    } else {
      var all := ts + policy;
      assert all[0] == ts[0] && all[1..] == ts[1..] + policy;
      if operandNext {
        ScanBeforePolicy(ts[1..], policy, ts[0].Open?, depth + if ts[0].Open? then 1 else 0);
      } else if !ts[0].Close? {
        ScanBeforePolicy(ts[1..], policy, true, depth);
      } else if depth > 0 {
        ScanBeforePolicy(ts[1..], policy, false, depth - 1);
      }
    }
  }

  // the comparisons all hold, the policy does not
  function PolicyFails(t: Token): Tri {
    if t.Policy? then False else True
  }

  ghost predicate NoPolicy(ts: seq<Token>) {
    forall t :: t in ts ==> !t.Policy?
  }

  lemma {:induction false} OperandHolds(ts: seq<Token>)
    requires NoPolicy(ts) && ParseOperand(ts).Some?
    ensures Eval(ParseOperand(ts).value.0, PolicyFails) == True && NoPolicy(ParseOperand(ts).value.1)
    decreases |ts|, 0
  {
    assert ts[0] in ts && forall t :: t in ts[1..] ==> t in ts;
    if ts[0].Open? {
      ClauseHolds(ts[1..]);
      var rest := ParseOr(ts[1..]).value.1;
      assert forall t :: t in rest[1..] ==> t in rest;
    }
  }

  lemma {:induction false} ConjunctionHolds(ts: seq<Token>)
    requires NoPolicy(ts) && ParseAnd(ts).Some?
    ensures Eval(ParseAnd(ts).value.0, PolicyFails) == True && NoPolicy(ParseAnd(ts).value.1)
    decreases |ts|, 1
  {
    OperandHolds(ts);
    var rest := ParseOperand(ts).value.1;
    if rest != [] && rest[0].And? {
      assert forall t :: t in rest[1..] ==> t in rest;
      ConjunctionHolds(rest[1..]);
    }
  }

  lemma {:induction false} ClauseHolds(ts: seq<Token>)
    requires NoPolicy(ts) && ParseOr(ts).Some?
    ensures Eval(ParseOr(ts).value.0, PolicyFails) == True && NoPolicy(ParseOr(ts).value.1)
    decreases |ts|, 2
  {
    ConjunctionHolds(ts);
    var rest := ParseAnd(ts).value.1;
    if rest != [] && rest[0].Or? {
      assert forall t :: t in rest[1..] ==> t in rest;
      ClauseHolds(rest[1..]);
    }
  }

  // the clause is true only where the policy is
  ghost predicate PolicyDecides(clause: seq<Token>, policy: seq<Token>) {
    forall v: Token -> Tri :: Meaning(clause, v) == Some(True) ==> PolicyMeaning(policy, v) == True
  }

  lemma OneConjunctionObeysPolicy(body: seq<Token>, policy: seq<Token>)
    requires Scan(body, true, 0) && !OrOutside(body, 0) && IsPolicy(policy)
    ensures forall v: Token -> Tri :: Meaning(body, v).Some? &&
              Meaning(body + policy, v) == Some(And3(Meaning(body, v).value, PolicyMeaning(policy, v)))
  {
    ConjunctionIffNoOuterOr(body);
    if policy == [] {
      assert body + policy == body;
    } else {
      forall v: Token -> Tri
        ensures ParseAnd(policy[1..]).Some? && ParseAnd(policy[1..]).value.1 == []
        ensures Eval(ParseAnd(policy[1..]).value.0, v) == PolicyMeaning(policy, v)
      {
        PolicyParses(policy, v);
      }
      assert policy == [And] + policy[1..];
      PolicyParses(policy, PolicyFails);
      var t := ConjunctionThenAnd(body, policy[1..]);
    }
  }

  lemma OuterOrEscapesPolicy(body: seq<Token>, policy: seq<Token>)
    requires Scan(body, true, 0) && OrOutside(body, 0) && IsPolicy(policy) && policy != [] && NoPolicy(body)
    ensures Meaning(body + policy, PolicyFails) == Some(True) && PolicyMeaning(policy, PolicyFails) == False
  {
    ConjunctionIffNoOuterOr(body);
    ConjunctionHolds(body);
    ConjunctionGoesOn(body, policy);
    ScanBeforePolicy(body, policy, true, 0);
    ReadableIffScanned(body + policy, PolicyFails);
  }

  lemma PolicyDecidesIffNoOuterOr(body: seq<Token>, policy: seq<Token>)
    requires Scan(body, true, 0) && IsPolicy(policy) && NoPolicy(body)
    ensures PolicyDecides(body + policy, policy) <==> policy == [] || !OrOutside(body, 0)
  {
    if policy != [] {
      if OrOutside(body, 0) {
        OuterOrEscapesPolicy(body, policy);
      } else {
        OneConjunctionObeysPolicy(body, policy);
      }
    }
  }

  // ---- the policy of a compiled request

  // the text of any WHERE clause with filters: the compiled lines, and the policy behind them
  lemma ClauseParts(sc: Cache, q: DataGet, args: Args, nesting: nat) returns (lines: seq<WhereLine>, policy: seq<Token>)
    requires PrepareQuery(sc, q, args, nesting).Success? && q.filters != []
    ensures WrittenAs(lines, CompiledFilters(q.filters)) && PairsOf(lines) == PairsOfFilters(CompiledFilters(q.filters))
    ensures forall l :: l in lines ==> !l.connector.BadConnector?
    ensures PolicyFilter(sc, "select", q.indexSource, nesting, sc.relations[q.relationId].policies) == Success(policy)
    ensures IsPolicy(policy)
    ensures PrepareQuery(sc, q, args, nesting).value.sql.where == [Where] + (Body(lines) + policy)
  {
    CompiledLines(sc, q, 0, [], args, nesting);
    lines := AddFilters(sc, q, 0, [], args, nesting).value.0;
    policy := PolicyFilter(sc, "select", q.indexSource, nesting, sc.relations[q.relationId].policies).value;
    PolicyFilterIsPolicy(sc, "select", q.indexSource, nesting, sc.relations[q.relationId].policies);
    assert CompiledFilters(q.filters) == seq(|q.filters|, k requires 0 <= k < |q.filters| => FilterAt(q.filters, k));
    ConnectorsAreKnown(sc, q, 0, [], args, nesting);
    var all := lines + if policy != [] then [PolicyLine(policy)] else [];
    assert RenderAll(all) == RenderAll(lines) + policy by {
      if policy == [] {
        assert all == lines && RenderAll(lines) + policy == RenderAll(lines);
      } else {
        RenderWithPolicy(lines, policy);
      }
    }
    RenderAllHead(lines);
    Assoc([And], Body(lines), policy);
    AndBecomesWhere(Body(lines) + policy);
  }

  lemma {:induction false} ConnectorsAreKnown(sc: Cache, q: DataGet, i: nat, lines: seq<WhereLine>, args: Args,
                                              nesting: nat)
    requires i <= |q.filters| && AddFilters(sc, q, i, lines, args, nesting).Success?
    requires forall l :: l in lines ==> l.FilterLine? && !l.connector.BadConnector?
    ensures forall l :: l in AddFilters(sc, q, i, lines, args, nesting).value.0 ==>
              l.FilterLine? && !l.connector.BadConnector?
    decreases |q.filters| - i
  {
    if i < |q.filters| {
      var step := AddWhere(sc, q, FilterAt(q.filters, i), args, nesting).value;
      ConnectorsAreKnown(sc, q, i + 1, lines + [step.0], step.1, nesting);
    }
  }

  lemma {:induction false} LinesHaveNoPolicy(lines: seq<WhereLine>)
    requires forall l :: l in lines ==> l.FilterLine?
    ensures NoPolicy(RenderAll(lines))
  {
    if lines != [] {
      assert lines[0] in lines && forall l :: l in lines[1..] ==> l in lines;
      LinesHaveNoPolicy(lines[1..]);
      RepeatOnly(Open, lines[0].opens);
      RepeatOnly(Close, lines[0].closes);
    }
  }

  lemma HasOuterOrIsOutside(lines: seq<WhereLine>, filters: seq<Filter>)
    requires filters != [] && WrittenAs(lines, CompiledFilters(filters)) &&
             PairsOf(lines) == PairsOfFilters(CompiledFilters(filters))
    requires forall l :: l in lines ==> l.FilterLine? && !l.connector.BadConnector?
    ensures OrOutside(Body(lines), 0) <==> HasOuterOr(filters)
  {
    OuterOrIsWritten(lines, 0);
    OrAtHead(lines, 0);
    assert lines[0].connector.ConnectAnd?;
    if HasOuterOr(filters) {
      var i :| 0 < i < |filters| && filters[i].connector.ConnectOr? &&
          DepthBefore(PairsOfFilters(CompiledFilters(filters)), i) == 0;
      assert lines[i].connector.ConnectOr?;
    }
    if OuterOrFrom(lines, 0) {
      var i :| 0 <= i < |lines| && lines[i].connector.ConnectOr? && 0 + DepthBefore(PairsOf(lines), i) == 0;
      assert filters[i].connector.ConnectOr?;
    }
  }

  // At any nesting level: the clause can be read if and only if the compiled brackets are nested; and then
  // it is true only where the policy is, whatever the comparisons evaluate to, if and only if there is no
  // policy or no filter is connected by OR outside of all brackets.
  lemma PolicyHoldsIffNoOuterOr(sc: Cache, q: DataGet, args: Args, nesting: nat) returns (policy: seq<Token>)
    requires PrepareQuery(sc, q, args, nesting).Success? && q.filters != []
    ensures PolicyFilter(sc, "select", q.indexSource, nesting, sc.relations[q.relationId].policies) == Success(policy)
    ensures var where := PrepareQuery(sc, q, args, nesting).value.sql.where;
            && where != [] && where[0].Where?
            && (forall v: Token -> Tri :: Meaning(where[1..], v).Some? <==>
                Nested(PairsOfFilters(CompiledFilters(q.filters)), 0))
            && (Nested(PairsOfFilters(CompiledFilters(q.filters)), 0) ==>
                  (PolicyDecides(where[1..], policy) <==> policy == [] || !HasOuterOr(q.filters)))
  {
    var lines;
    lines, policy := ClauseParts(sc, q, args, nesting);
    var body := Body(lines);
    var where := PrepareQuery(sc, q, args, nesting).value.sql.where;
    assert where[1..] == body + policy;
    forall l | l in lines
      ensures l.FilterLine?
    {
      var k :| 0 <= k < |lines| && lines[k] == l;
    }
    ScanIsNested(lines, 0);
    ScanBeforePolicy(body, policy, true, 0);
    forall v: Token -> Tri
      ensures Meaning(where[1..], v).Some? <==> Nested(PairsOfFilters(CompiledFilters(q.filters)), 0)
    {
      ReadableIffScanned(body + policy, v);
    }
    if Nested(PairsOfFilters(CompiledFilters(q.filters)), 0) {
      LinesHaveNoPolicy(lines);
      RenderAllHead(lines);
      assert forall t :: t in body ==> t in RenderAll(lines);
      HasOuterOrIsOutside(lines, q.filters);
      PolicyDecidesIffNoOuterOr(body, policy);
    }
  }

  // A request whose two filters are written as  a ) OR ( b : it is compiled, the clause can be read, and is
  // true for a record that the policy shuts out.
  lemma UnnestedFiltersDiffer() returns (sc: Cache, q: DataGet, policy: seq<Token>, v: Token -> Tri)
    ensures PrepareQuery(sc, q, Args([], Some([])), 0).Success?
    ensures PolicyFilter(sc, "select", q.indexSource, 0, sc.relations[q.relationId].policies) == Success(policy)
    ensures !Nested(PairsOfFilters(q.filters), 0)
    ensures var where := PrepareQuery(sc, q, Args([], Some([])), 0).value.sql.where;
            where != [] && Meaning(where[1..], v) == Some(True) && PolicyMeaning(policy, v) != True
  {
    var side := Side(Some(3), 0, 0, 0, None, EMPTY_GET, Nil);
    var a := Filter(ConnectAnd, IsNull, side, side.(brackets := 1));
    var b := Filter(ConnectOr, IsNull, side.(brackets := 1), side);
    q := DataGet(1, 0, [], [], [a, b]);
    sc := Cache(map[2 := "m"], map[1 := Relation(2, "r", [RelationPolicy(5, false, true, false, Some(4), None)])],
                map[3 := Attribute(1, "a", OtherContent, None)], map[4 := PgFunction(2, "f")], {},
                Some(Access({5}, map[], map[])));
    var args := Args([], Some([]));
    PolicyOfExample(sc);
    ExampleCompiles(sc, q, FilterAt(q.filters, 0), args);
    ExampleCompiles(sc, q, FilterAt(q.filters, 1), args);
    var first, second := AddWhere(sc, q, FilterAt(q.filters, 0), args, 0),
        AddWhere(sc, q, FilterAt(q.filters, 1), args, 0);
    assert AddFilters(sc, q, 2, [] + [first.value.0] + [second.value.0], args, 0).Success?;
    assert AddFilters(sc, q, 1, [] + [first.value.0], args, 0).Success?;
    assert AddFilters(sc, q, 0, [], args, 0).Success?;
    assert PrepareQuery(sc, q, args, 0).Success?;
    ExampleBrackets(q.filters);
    policy := PolicyHoldsIffNoOuterOr(sc, q, args, 0);
    assert !PolicyDecides(PrepareQuery(sc, q, args, 0).value.sql.where[1..], policy);
    v :| Meaning(PrepareQuery(sc, q, args, 0).value.sql.where[1..], v) == Some(True) &&
        PolicyMeaning(policy, v) != True;
  }

  lemma ExampleCompiles(sc: Cache, q: DataGet, f: Filter, args: Args)
    requires f.side0.query < q && f.side1.query < q && f.side0.query == EMPTY_GET
    requires !f.connector.BadConnector? && f.operator.IsNull?
    requires f.side0.attributeId == Some(3) && 3 in sc.attributes
    ensures AddWhere(sc, q, f, args, 0).Success? && AddWhere(sc, q, f, args, 0).value.1 == args
  {
    assert GetComp(sc, q, f.side0, f.operator, f.side0.ftsDict.Some? || f.side1.ftsDict.Some?, args, 0).Success?;
  }

  lemma ExampleBrackets(filters: seq<Filter>)
    requires |filters| == 2 && filters[0].side0.brackets == 0 && filters[0].side1.brackets == 1
    requires filters[1].side0.brackets == 1 && filters[1].side1.brackets == 0 && filters[1].connector.ConnectOr?
    ensures !Nested(PairsOfFilters(filters), 0) && Nested(PairsOfFilters(CompiledFilters(filters)), 0) &&
            HasOuterOr(filters)
  {
    var ps := PairsOfFilters(CompiledFilters(filters));
    assert ps[0] == Pair(1, 1) && ps[1..] == [Pair(1, 1)] && ps[1..][1..] == [];
    assert Nested(ps[1..], 0);
    assert DepthBefore(ps, 1) == DepthBefore(ps, 0) + 1 - 1;
    assert PairsOfFilters(filters)[0] == Pair(0, 1);
  }

  lemma PolicyOfExample(sc: Cache)
    requires sc.access == Some(Access({5}, map[], map[])) && sc.functions == map[4 := PgFunction(2, "f")] &&
             sc.modules == map[2 := "m"]
    ensures PolicyFilter(sc, "select", 0, 0, [RelationPolicy(5, false, true, false, Some(4), None)])
         == Success([And, Policy(0, 0, true, "m", "f")])
  {
    var p := RelationPolicy(5, false, true, false, Some(4), None);
    assert ["delete", "select", "update"][1] == "select";
    assert NamesOf(sc, p) == Success(PolicyNames(Some(("m", "f")), None));
    FirstMatchingPolicyDecides(sc, "select", {5}, [p], 0);
    var clause := [And, Policy(0, 0, true, "m", "f")];
    assert clause + [] == clause;
  }
}
