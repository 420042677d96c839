/** What the WHERE clause of a compiled request means: its own filters AND the relation policy. */
module WhereMeaning {
  import opened Wrappers
  import opened DataRequest
  import opened SchemaCache
  import opened SqlTree
  import opened QueryCompiler
  import opened QueryReading
  import opened WhereGrammar

  // ---- brackets of a list of filters

  datatype Pair = Pair(opens: int, closes: int)

  function AtLeast0(n: int): nat {
    if n < 0 then 0 else n
  }

  // Reading from the left, no filter closes more brackets than are open, and none stays open.
  predicate Nested(ps: seq<Pair>, depth: nat) {
    if ps == [] then depth == 0
    else
      var after := depth + AtLeast0(ps[0].opens) - AtLeast0(ps[0].closes);
      after >= 0 && Nested(ps[1..], after)
  }

  function PairsOf(lines: seq<WhereLine>): seq<Pair>
    requires forall l :: l in lines ==> l.FilterLine?
  {
    seq(|lines|, i requires 0 <= i < |lines| => Pair(lines[i].opens, lines[i].closes))
  }

  // the text after the leading connector, which is written as WHERE
  function Body(lines: seq<WhereLine>): seq<Token>
    requires lines != [] && lines[0].FilterLine?
  {
    RenderAll(lines)[1..]
  }

  lemma {:induction false} ScanOpens(n: int, rest: seq<Token>, depth: nat)
    ensures Scan(Repeat(Open, n) + rest, true, depth) == Scan(rest, true, depth + AtLeast0(n))
  {
    if n > 0 {
      ScanOpens(n - 1, rest, depth + 1);
      assert (Repeat(Open, n) + rest)[1..] == Repeat(Open, n - 1) + rest;
    } else {
      assert Repeat(Open, n) + rest == rest;
    }
  }

  lemma {:induction false} ScanCloses(n: int, rest: seq<Token>, depth: nat)
    ensures Scan(Repeat(Close, n) + rest, false, depth)
         == (depth >= AtLeast0(n) && Scan(rest, false, depth - AtLeast0(n)))
  {
    if n > 0 {
      var all := Repeat(Close, n) + rest;
      assert all[1..] == Repeat(Close, n - 1) + rest;
      if depth > 0 {
        ScanCloses(n - 1, rest, depth - 1);
      }
    } else {
      assert Repeat(Close, n) + rest == rest;
    }
  }

  lemma Assoc(a: seq<Token>, b: seq<Token>, c: seq<Token>)
    ensures (a + b) + c == a + (b + c)
  {
  }

  lemma Regroup(a: seq<Token>, b: seq<Token>, c: seq<Token>, d: seq<Token>, e: seq<Token>)
    ensures (a + b + c + d) + e == a + (b + (c + (d + e)))
  {
  }

  lemma RenderAllHead(lines: seq<WhereLine>)
    requires lines != [] && lines[0].FilterLine?
    ensures var l := lines[0];
            RenderAll(lines) == [if l.connector.ConnectAnd? then And else Or] + Body(lines) &&
            Body(lines) == Brackets(l.opens, false) +
                           ([Compare(l.left, l.operator, l.right)] + (Brackets(l.closes, true) + RenderAll(lines[1..])))
  {
    var l := lines[0];
    var conn := [if l.connector.ConnectAnd? then And else Or];
    var opens, closes := Brackets(l.opens, false), Brackets(l.closes, true);
    var compare := [Compare(l.left, l.operator, l.right)];
    assert Render(l) == conn + opens + compare + closes;
    Regroup(conn, opens, compare, closes, RenderAll(lines[1..]));
    var body := opens + (compare + (closes + RenderAll(lines[1..])));
    assert RenderAll(lines) == conn + body && (conn + body)[1..] == body;
  }

  // reading one line: its brackets change the depth, which must not fall below zero
  lemma ScanLine(lines: seq<WhereLine>, depth: nat)
    requires lines != [] && lines[0].FilterLine?
    ensures Scan(Body(lines), true, depth)
         == (DepthAfter(lines[0], depth) >= 0 && Scan(RenderAll(lines[1..]), false, DepthAfter(lines[0], depth)))
  {
    var l, rest := lines[0], RenderAll(lines[1..]);
    RenderAllHead(lines);
    var closing := Brackets(l.closes, true) + rest;
    var compare := [Compare(l.left, l.operator, l.right)] + closing;
    ScanOpens(l.opens, compare, depth);
    assert compare[1..] == closing;
    ScanCloses(l.closes, rest, depth + AtLeast0(l.opens));
  }

  function DepthAfter(l: WhereLine, depth: nat): int
    requires l.FilterLine?
  {
    depth + AtLeast0(l.opens) - AtLeast0(l.closes)
  }

  lemma ConnectorFirst(lines: seq<WhereLine>, depth: nat)
    requires lines != [] && lines[0].FilterLine?
    ensures Scan(RenderAll(lines), false, depth) == Scan(Body(lines), true, depth)
  {
    RenderAllHead(lines);
  }

  lemma NestedLine(lines: seq<WhereLine>, depth: nat)
    requires lines != [] && forall l :: l in lines ==> l.FilterLine?
    ensures lines[0].FilterLine? && forall l :: l in lines[1..] ==> l.FilterLine?
    ensures Nested(PairsOf(lines), depth)
         == (DepthAfter(lines[0], depth) >= 0 && Nested(PairsOf(lines[1..]), DepthAfter(lines[0], depth)))
  {
    assert PairsOf(lines)[0] == Pair(lines[0].opens, lines[0].closes) && PairsOf(lines)[1..] == PairsOf(lines[1..]);
  }

  // The scan of filter lines is exactly the bracket count.
  lemma {:induction false} ScanIsNested(lines: seq<WhereLine>, depth: nat)
    requires lines != [] && forall l :: l in lines ==> l.FilterLine?
    ensures Scan(Body(lines), true, depth) == Nested(PairsOf(lines), depth)
  {
    var rest, after := lines[1..], DepthAfter(lines[0], depth);
    ScanLine(lines, depth);
    NestedLine(lines, depth);
    if after >= 0 {
      if rest == [] {
        assert RenderAll(rest) == [] && PairsOf(rest) == [];
      } else {
        assert rest[0] in rest;
        ConnectorFirst(rest, after);
        ScanIsNested(rest, after);
      }
    }
  }

  // Filter lines can be read on their own if and only if their brackets are nested.
  lemma FiltersReadableIffNested(lines: seq<WhereLine>, v: Token -> Tri)
    requires lines != [] && forall l :: l in lines ==> l.FilterLine?
    ensures Meaning(Body(lines), v).Some? <==> Nested(PairsOf(lines), 0)
  {
    ReadableIffScanned(Body(lines), v);
    ScanIsNested(lines, 0);
  }

  // ---- one pair of brackets around all filters

  // lines that always start with AND and are enclosed in brackets of their own
  function Enclosed(lines: seq<WhereLine>): seq<WhereLine>
    requires lines != [] && forall l :: l in lines ==> l.FilterLine?
  {
    seq(|lines|, i requires 0 <= i < |lines| =>
      var l := lines[i];
      FilterLine(if i == 0 then ConnectAnd else l.connector, l.opens + (if i == 0 then 1 else 0),
                 l.left, l.operator, l.right, l.closes + (if i == |lines| - 1 then 1 else 0)))
  }

  lemma {:induction false} RepeatMore(t: Token, n: nat)
    ensures Repeat(t, n + 1) == Repeat(t, n) + [t]
  {
    if n > 0 {
      RepeatMore(t, n - 1);
    } else {
      assert Repeat(t, 0) == [];
    }
  }

  // closing one more bracket at the end of the last line
  function CloseLast(lines: seq<WhereLine>): seq<WhereLine>
    requires lines != [] && lines[|lines| - 1].FilterLine?
  {
    var n := |lines| - 1;
    lines[n := lines[n].(closes := lines[n].closes + 1)]
  }

  lemma RenderOneMoreClose(l: WhereLine)
    requires l.FilterLine? && l.closes >= 0
    ensures Render(l.(closes := l.closes + 1)) == Render(l) + [Close]
  {
    RepeatMore(Close, l.closes);
    Assoc([if l.connector.ConnectAnd? then And else Or] + Brackets(l.opens, false) +
        [Compare(l.left, l.operator, l.right)],
          Brackets(l.closes, true), [Close]);
  }

  lemma {:induction false} CloseLastRenders(lines: seq<WhereLine>)
    requires lines != [] && lines[|lines| - 1].FilterLine? && lines[|lines| - 1].closes >= 0
    ensures RenderAll(CloseLast(lines)) == RenderAll(lines) + [Close]
  {
    var closed := CloseLast(lines);
    if |lines| == 1 {
      RenderOneMoreClose(lines[0]);
      assert lines[1..] == [] && closed[1..] == [];
      Assoc(Render(lines[0]), [], [Close]);
      Assoc(Render(lines[0]), [Close], []);
    } else {
      CloseLastRenders(lines[1..]);
      assert closed[0] == lines[0] && closed[1..] == CloseLast(lines[1..]);
      Assoc(Render(lines[0]), RenderAll(lines[1..]), [Close]);
    }
  }

  lemma EnclosedIsClosedLast(lines: seq<WhereLine>)
    requires lines != [] && forall l :: l in lines ==> l.FilterLine?
    ensures var closed := (assert lines[|lines| - 1] in lines; CloseLast(lines));
            closed[0].FilterLine? && closed[0].opens == lines[0].opens &&
            Enclosed(lines)[0] == closed[0].(connector := ConnectAnd, opens := closed[0].opens + 1) &&
            Enclosed(lines)[1..] == closed[1..]
  {
    forall i | 0 <= i < |lines|
      ensures lines[i].FilterLine?
    {
      assert lines[i] in lines;
    }
  }

  lemma EnclosedRenders(lines: seq<WhereLine>)
    requires lines != [] && forall l :: l in lines ==> l.FilterLine?
    requires lines[0].opens >= 0 && lines[|lines| - 1].closes >= 0
    ensures RenderAll(Enclosed(lines)) == [And] + ([Open] + Body(lines) + [Close])
    ensures Body(Enclosed(lines)) == [Open] + Body(lines) + [Close]
  {
    assert lines[|lines| - 1] in lines;
    var closed, all := CloseLast(lines), Enclosed(lines);
    EnclosedIsClosedLast(lines);
    CloseLastRenders(lines);
    RenderAllHead(lines);
    var body := Body(lines);
    assert Body(closed) == body + [Close] by {
      TailOf(RenderAll(lines)[0], body, [Close]);
    }
    OneMoreOpen(closed, all);
    RenderAllHead(all);
    Assoc([Open], body, [Close]);
  }

  lemma TailOf(t: Token, a: seq<Token>, b: seq<Token>)
    ensures (([t] + a) + b)[1..] == a + b
  {
  }

  lemma BracketsWithOneMore(n: nat)
    ensures Brackets(n + 1, false) == [Open] + Brackets(n, false)
  {
  }

  lemma OneMoreOpen(lines: seq<WhereLine>, more: seq<WhereLine>)
    requires lines != [] && lines[0].FilterLine? && lines[0].opens >= 0
    requires more != [] && more[0] == lines[0].(connector := ConnectAnd, opens := lines[0].opens + 1)
    requires more[1..] == lines[1..]
    ensures Body(more) == [Open] + Body(lines)
  {
    var l := lines[0];
    var rest := [Compare(l.left, l.operator, l.right)] + (Brackets(l.closes, true) + RenderAll(lines[1..]));
    RenderAllHead(lines);
    RenderAllHead(more);
    assert Body(lines) == Brackets(l.opens, false) + rest && Body(more) == Brackets(l.opens + 1, false) + rest;
    BracketsWithOneMore(l.opens);
    Assoc([Open], Brackets(l.opens, false), rest);
  }

  // ---- the policy

  // the clauses of a policy, all of which must hold
  ghost function PolicyMeaning(ts: seq<Token>, v: Token -> Tri): Tri {
    if |ts| < 2 then True else if |ts| < 4 then v(ts[1]) else And3(v(ts[1]), v(ts[3]))
  }

  // a policy is nothing, AND clause, or AND clause AND clause
  ghost predicate IsPolicy(ts: seq<Token>) {
    ts == [] ||
    (|ts| == 2 && ts[0].And? && ts[1].Policy?) ||
    (|ts| == 4 && ts[0].And? && ts[1].Policy? && ts[2].And? && ts[3].Policy?)
  }

  lemma PolicyParses(ts: seq<Token>, v: Token -> Tri)
    requires IsPolicy(ts) && ts != []
    ensures var r := ParseAnd(ts[1..]);
            r.Some? && r.value.1 == [] && Eval(r.value.0, v) == PolicyMeaning(ts, v) && ParseOr(ts[1..]) == r
  {
    var clause := ts[1..];
    if |ts| == 4 {
      assert clause[1..] == ts[2..] && ts[2..][1..] == ts[3..] && ts[3..][1..] == [];
      assert ParseAnd(ts[3..]) == Some((Atom(ts[3]), []));
      assert ParseAnd(clause) == Some((Both(Atom(ts[1]), Atom(ts[3])), []));
    } else {
      assert clause[1..] == [];
    }
  }

  lemma PolicyFilterIsPolicy(sc: Cache, action: string, index: int, nested: int, policies: seq<RelationPolicy>)
    requires PolicyFilter(sc, action, index, nested, policies).Success?
    ensures IsPolicy(PolicyFilter(sc, action, index, nested, policies).value)
  {
  }

  // ---- compiled filters

  // the lines of a request's filters as the request wrote them: its connectors and brackets
  ghost predicate WrittenAs(lines: seq<WhereLine>, filters: seq<Filter>) {
    |lines| == |filters| &&
    forall i :: 0 <= i < |lines| ==>
      lines[i].FilterLine? &&
      lines[i].connector == filters[i].connector &&
      lines[i].opens == filters[i].side0.brackets &&
      lines[i].closes == filters[i].side1.brackets
  }

  // the same comparisons, whatever connectors and brackets are around them
  ghost predicate SameComparisons(a: seq<WhereLine>, b: seq<WhereLine>) {
    |a| == |b| &&
    forall i :: 0 <= i < |a| ==>
      a[i].FilterLine? && b[i].FilterLine? &&
      a[i].left == b[i].left && a[i].operator == b[i].operator && a[i].right == b[i].right
  }

  lemma {:induction false} CompiledLines(sc: Cache, q: DataGet, i: nat, lines: seq<WhereLine>, args: Args, nesting: nat)
    requires i <= |q.filters|
    requires AddFilters(sc, q, i, lines, args, nesting).Success?
    requires |lines| == i
    requires WrittenAs(lines, seq(i, k requires 0 <= k < i => FilterAt(q.filters, k)))
    ensures var all := AddFilters(sc, q, i, lines, args, nesting).value.0;
            WrittenAs(all, seq(|q.filters|, k requires 0 <= k < |q.filters| => FilterAt(q.filters, k)))
    decreases |q.filters| - i
  {
    if i < |q.filters| {
      var step := AddWhere(sc, q, FilterAt(q.filters, i), args, nesting).value;
      CompiledLines(sc, q, i + 1, lines + [step.0], step.1, nesting);
    }
  }

  function PairsOfFilters(filters: seq<Filter>): seq<Pair> {
    seq(|filters|, i requires 0 <= i < |filters| => Pair(filters[i].side0.brackets, filters[i].side1.brackets))
  }

  // the request's own lines: what was compiled, without the added brackets and connector
  lemma OwnLines(sc: Cache, q: DataGet, args: Args, nesting: nat) returns (own: seq<WhereLine>)
    requires q.filters != []
    requires AddFilters(sc, q, 0, [], args, nesting).Success?
    ensures WrittenAs(own, q.filters)
    ensures SameComparisons(own, AddFilters(sc, q, 0, [], args, nesting).value.0)
    ensures AddFilters(sc, q, 0, [], args, nesting).value.0 == Enclosed(own)
    ensures PairsOf(own) == PairsOfFilters(q.filters)
  {
    CompiledLines(sc, q, 0, [], args, nesting);
    var all := AddFilters(sc, q, 0, [], args, nesting).value.0;
    own := seq(|all|, i requires 0 <= i < |all| =>
      FilterLine(q.filters[i].connector, q.filters[i].side0.brackets, all[i].left, all[i].operator, all[i].right,
                 q.filters[i].side1.brackets));
  }

  // the text of the clause: WHERE ( filters ) policy
  lemma WhereText(sc: Cache, q: DataGet, args: Args, nesting: nat) returns (own: seq<WhereLine>, policy: seq<Token>)
    requires PrepareQuery(sc, q, args, nesting).Success?
    requires q.filters != []
    requires q.filters[0].side0.brackets >= 0 && q.filters[|q.filters| - 1].side1.brackets >= 0
    ensures WrittenAs(own, q.filters) && PairsOf(own) == PairsOfFilters(q.filters)
    ensures SameComparisons(own, AddFilters(sc, q, 0, [], args, nesting).value.0)
    ensures PolicyFilter(sc, "select", q.indexSource, nesting, sc.relations[q.relationId].policies) == Success(policy)
    ensures IsPolicy(policy)
    ensures PrepareQuery(sc, q, args, nesting).value.sql.where == [Where] + ([Open] + Body(own) + [Close] + policy)
  {
    var lines := AddFilters(sc, q, 0, [], args, nesting).value.0;
    own := OwnLines(sc, q, args, nesting);
    policy := PolicyFilter(sc, "select", q.indexSource, nesting, sc.relations[q.relationId].policies).value;
    PolicyFilterIsPolicy(sc, "select", q.indexSource, nesting, sc.relations[q.relationId].policies);
    EnclosedRenders(own);
    var all := lines + if policy != [] then [PolicyLine(policy)] else [];
    assert RenderAll(all) == RenderAll(lines) + policy by {
      if policy == [] {
        assert all == lines && RenderAll(lines) + policy == RenderAll(lines);
      } else {
        RenderWithPolicy(lines, policy);
      }
    }
    Assoc([And], [Open] + Body(own) + [Close], policy);
    AndBecomesWhere([Open] + Body(own) + [Close] + policy);
  }

  lemma AndBecomesWhere(clause: seq<Token>)
    ensures ReplaceFirstAnd([And] + clause) == [Where] + clause
  {
    assert ([And] + clause)[1..] == clause;
  }

  lemma EnclosedAndPolicy(body: seq<Token>, policy: seq<Token>, v: Token -> Tri)
    requires Meaning(body, v).Some? && IsPolicy(policy)
    ensures Meaning([Open] + body + [Close] + policy, v) == Some(And3(Meaning(body, v).value, PolicyMeaning(policy, v)))
  {
    if policy == [] {
      assert [Open] + body + [Close] + policy == [Open] + body + [Close];
      Bracketed1(body, v);
    } else {
      assert policy == [And] + policy[1..];
      assert [Open] + body + [Close] + policy == [Open] + body + [Close, And] + policy[1..];
      PolicyParses(policy, v);
      BracketedThenAnd(body, policy[1..], v);
    }
  }

  lemma SameLinesRead(sc: Cache, q: DataGet, own: seq<WhereLine>, lines: seq<WhereLine>, vs: seq<Value>, nesting: nat)
    requires SameComparisons(own, lines) && LinesRead(sc, q, lines, vs, nesting)
    ensures LinesRead(sc, q, own, vs, nesting)
  {
    forall i | 0 <= i < |own|
      ensures FilterReads(sc, q, q.filters[i], CompareOf(own[i]), vs, nesting)
    {
      assert CompareOf(own[i]) == CompareOf(lines[i]);
    }
  }

  // Main result, at any nesting level: the WHERE clause of a request means all of the request's own
  // filters AND the policy, whatever the comparisons evaluate to, if and only if the brackets of the
  // filters are nested. No OR among nested filters reaches the policy. The comparisons are those of the filters.
  lemma WhereIsFiltersAndPolicy(sc: Cache, q: DataGet, args: Args, nesting: nat, v: Token -> Tri)
    returns (own: seq<WhereLine>, policy: seq<Token>)
    requires PrepareQuery(sc, q, args, nesting).Success?
    requires q.filters != []
    requires q.filters[0].side0.brackets >= 0 && q.filters[|q.filters| - 1].side1.brackets >= 0
    ensures WrittenAs(own, q.filters)
    ensures SameComparisons(own, AddFilters(sc, q, 0, [], args, nesting).value.0)
    ensures LinesRead(sc, q, own, PrepareQuery(sc, q, args, nesting).value.args.query, nesting)
    ensures PolicyFilter(sc, "select", q.indexSource, nesting, sc.relations[q.relationId].policies) == Success(policy)
    ensures var where := PrepareQuery(sc, q, args, nesting).value.sql.where;
            where != [] && where[0].Where? &&
            (Nested(PairsOfFilters(q.filters), 0) <==>
               Meaning(Body(own), v).Some? &&
               Meaning(where[1..], v) == Some(And3(Meaning(Body(own), v).value, PolicyMeaning(policy, v))))
  {
    own, policy := WhereText(sc, q, args, nesting);
    CompiledLinesRead(sc, q, args, nesting);
    SameLinesRead(sc, q, own, AddFilters(sc, q, 0, [], args, nesting).value.0,
                  PrepareQuery(sc, q, args, nesting).value.args.query, nesting);
    FiltersReadableIffNested(own, v);
    var clause := [Open] + Body(own) + [Close] + policy;
    assert ([Where] + clause)[1..] == clause;
    if Nested(PairsOfFilters(q.filters), 0) {
      EnclosedAndPolicy(Body(own), policy, v);
    }
  }

  lemma {:induction false} RenderWithPolicy(lines: seq<WhereLine>, policy: seq<Token>)
    ensures RenderAll(lines + [PolicyLine(policy)]) == RenderAll(lines) + policy
  {
    var p := [PolicyLine(policy)];
    if lines == [] {
      assert lines + p == p && p[1..] == [];
      assert policy + [] == policy;
    } else {
      assert (lines + p)[0] == lines[0] && (lines + p)[1..] == lines[1..] + p;
      RenderWithPolicy(lines[1..], policy);
      assert Render(lines[0]) + (RenderAll(lines[1..]) + policy) == (Render(lines[0]) + RenderAll(lines[1..])) + policy;
    }
  }

  // without filters, the clause is the policy alone or missing
  lemma WhereIsPolicy(sc: Cache, q: DataGet, args: Args, nesting: nat, v: Token -> Tri) returns (policy: seq<Token>)
    requires PrepareQuery(sc, q, args, nesting).Success?
    requires q.filters == []
    ensures PolicyFilter(sc, "select", q.indexSource, nesting, sc.relations[q.relationId].policies) == Success(policy)
    ensures var where := PrepareQuery(sc, q, args, nesting).value.sql.where;
            if policy == [] then where == []
            else where != [] && where[0].Where? && Meaning(where[1..], v) == Some(PolicyMeaning(policy, v))
  {
    policy := PolicyFilter(sc, "select", q.indexSource, nesting, sc.relations[q.relationId].policies).value;
    PolicyFilterIsPolicy(sc, "select", q.indexSource, nesting, sc.relations[q.relationId].policies);
    assert AddFilters(sc, q, 0, [], args, nesting).value.0 == [];
    RenderWithPolicy([], policy);
    assert [] + [PolicyLine(policy)] == [PolicyLine(policy)] && [] + policy == policy;
    if policy != [] {
      PolicyParses(policy, v);
    }
  }

  // ---- filters appended to an enclosed block

  lemma {:induction false} LinesWithoutOr(lines: seq<WhereLine>)
    requires forall l :: l in lines ==> l.FilterLine? && l.connector.ConnectAnd?
    ensures Or !in RenderAll(lines)
  {
    if lines != [] {
      assert lines[0] in lines;
      forall l | l in lines[1..]
        ensures l.FilterLine? && l.connector.ConnectAnd?
      {
        assert l in lines;
      }
      LinesWithoutOr(lines[1..]);
      RepeatOnly(Open, lines[0].opens);
      RepeatOnly(Close, lines[0].closes);
    }
  }

  lemma {:induction false} RepeatOnly(t: Token, n: int)
    ensures forall x :: x in Repeat(t, n) ==> x == t
  {
    if n > 0 {
      RepeatOnly(t, n - 1);
    }
  }

  lemma {:induction false} RenderAllJoins(a: seq<WhereLine>, b: seq<WhereLine>)
    ensures RenderAll(a + b) == RenderAll(a) + RenderAll(b)
  {
    if a == [] {
      assert a + b == b;
    } else {
      assert (a + b)[0] == a[0] && (a + b)[1..] == a[1..] + b;
      RenderAllJoins(a[1..], b);
      assert Render(a[0]) + (RenderAll(a[1..]) + RenderAll(b)) == (Render(a[0]) + RenderAll(a[1..])) + RenderAll(b);
    }
  }

  lemma EnclosedThenMore(body: seq<Token>, more: seq<Token>, all: seq<Token>)
    requires all == (([And] + ([Open] + body + [Close])) + ([And] + more))[1..]
    ensures all == [Open] + body + [Close, And] + more
  {
  }

  // Filters appended with AND to an enclosed block are conjuncts of the whole block, even if the
  // block itself is a chain of ORs.
  lemma AppendedFiltersAreConjuncts(block: seq<WhereLine>, appended: seq<WhereLine>, v: Token -> Tri)
    requires block != [] && forall l :: l in block ==> l.FilterLine?
    requires block[0].opens >= 0 && block[|block| - 1].closes >= 0
    requires Nested(PairsOf(block), 0)
    requires appended != [] && forall l :: l in appended ==> l.FilterLine? && l.connector.ConnectAnd?
    requires Nested(PairsOf(appended), 0)
    ensures Meaning(Body(block), v).Some? && Meaning(Body(appended), v).Some?
    ensures Meaning(Body(Enclosed(block) + appended), v)
         == Some(And3(Meaning(Body(block), v).value, Meaning(Body(appended), v).value))
  {
    FiltersReadableIffNested(block, v);
    FiltersReadableIffNested(appended, v);
    EnclosedRenders(block);
    RenderAllJoins(Enclosed(block), appended);
    RenderAllHead(appended);
    LinesWithoutOr(appended);
    assert forall t :: t in Body(appended) ==> t in RenderAll(appended);
    WithoutOr(Body(appended), v);
    EnclosedThenMore(Body(block), Body(appended), Body(Enclosed(block) + appended));
    BracketedThenAnd(Body(block), Body(appended), v);
  }
}
