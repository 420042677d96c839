/** Which records of joined relations a compiled query returns, and when they fulfil the policy that is written
    into the join (data/data_get.go). */
module JoinPolicies {
  import opened Wrappers
  import opened DataRequest
  import opened SqlTree
  import opened SchemaCache
  import opened QueryCompiler
  import opened QueryReading
  import opened WhereMeaning

  // the record of each index in a returned row; an index without one is filled up with nulls
  type Row = map<int, int>

  // the records of each relation, the record that a relationship attribute of a record refers to, and the
  // record IDs that a policy function returns
  datatype Data = Data(
    records: Id -> set<int>,
    refers: (Id, int) -> Option<int>,
    lists: (string, string) -> set<int>)

  // a policy function that shuts records out, or lets no others in
  datatype Clause = Clause(exclude: bool, fncModule: string, fncName: string)

  function Clauses(policy: seq<Token>): set<Clause> {
    set t | t in policy && t.Policy? :: Clause(t.exclude, t.fncModule, t.fncName)
  }

  predicate Obeys(d: Data, policy: seq<Token>, record: int) {
    forall c :: c in Clauses(policy) ==> (record in d.lists(c.fncModule, c.fncName) <==> !c.exclude)
  }

  // ---- what a FROM clause yields

  // the join condition, which holds for no nulls
  predicate On(d: Data, c: JoinClause, row: Row, record: int) {
    && c.indexFrom in row
    && (if c.attributeOnSource then d.refers(c.attributeId, row[c.indexFrom]) == Some(record)
        else d.refers(c.attributeId, record) == Some(row[c.indexFrom]))
    && Obeys(d, c.policy, record)
  }

  predicate KeepsLeft(c: JoinConnector) {
    c.LeftJoin? || c.FullJoin?
  }

  predicate KeepsRight(c: JoinConnector) {
    c.RightJoin? || c.FullJoin?
  }

  // the row is in the result of the first n joins
  ghost predicate Joined(d: Data, s: Select, n: nat, row: Row)
    requires n <= |s.joins|
    decreases n
  {
    if n == 0 then row.Keys == {s.index} && row[s.index] in d.records(s.relationId)
    else Matched(d, s, n, row) || WithoutRight(d, s, n, row) || WithoutLeft(d, s, n, row)
  }

  ghost predicate Matched(d: Data, s: Select, n: nat, row: Row)
    requires 0 < n <= |s.joins|
    decreases n, 0
  {
    var c := s.joins[n - 1];
    && c.index in row && row[c.index] in d.records(c.relationId)
    && Joined(d, s, n - 1, row - {c.index}) && On(d, c, row - {c.index}, row[c.index])
  }

  ghost predicate WithoutRight(d: Data, s: Select, n: nat, row: Row)
    requires 0 < n <= |s.joins|
    decreases n, 0
  {
    var c := s.joins[n - 1];
    && KeepsLeft(c.connector) && c.index !in row && Joined(d, s, n - 1, row)
    && forall record :: record in d.records(c.relationId) ==> !On(d, c, row, record)
  }

  ghost predicate WithoutLeft(d: Data, s: Select, n: nat, row: Row)
    requires 0 < n <= |s.joins|
    decreases n, 0
  {
    var c := s.joins[n - 1];
    && KeepsRight(c.connector) && row.Keys == {c.index} && row[c.index] in d.records(c.relationId)
    && forall left :: Joined(d, s, n - 1, left) ==> !On(d, c, left, row[c.index])
  }

  // what the database accepts: aliases are different, joins start from an earlier one, and no CROSS JOIN has a
  // condition
  predicate Valid(s: Select) {
    && (forall k :: 0 <= k < |s.joins| ==> !s.joins[k].connector.CrossJoin? && s.joins[k].index != s.index)
    && (forall j, k :: 0 <= j < k < |s.joins| ==> s.joins[j].index != s.joins[k].index)
    && (forall k :: 0 <= k < |s.joins| ==> StartsEarlier(s, k))
  }

  predicate StartsEarlier(s: Select, k: nat)
    requires k < |s.joins|
  {
    s.joins[k].indexFrom == s.index || exists j :: 0 <= j < k && s.joins[j].index == s.joins[k].indexFrom
  }

  // ---- INNER and LEFT joins

  // Whatever comes behind it, an INNER or LEFT join lets no record pass that its policy shuts out.
  lemma {:induction false} InnerAndLeftObeyPolicy(d: Data, s: Select, n: nat, k: nat, row: Row)
    requires Valid(s) && k < n <= |s.joins| && !KeepsRight(s.joins[k].connector)
    requires Joined(d, s, n, row) && s.joins[k].index in row
    ensures Obeys(d, s.joins[k].policy, row[s.joins[k].index])
    decreases n
  {
    var c := s.joins[n - 1];
    if k < n - 1 {
      assert s.joins[k].index != c.index;
      if Matched(d, s, n, row) {
        InnerAndLeftObeyPolicy(d, s, n - 1, k, row - {c.index});
      } else {
        InnerAndLeftObeyPolicy(d, s, n - 1, k, row);
      }
    }
  }

  // ---- which joins behind a RIGHT or FULL join can still match

  // a step along a relationship attribute: to the record that it refers to, or to one that refers here
  datatype Edge = Edge(attributeId: Id, forwards: bool)

  // A record is told apart by the steps that lead to it. The record that an attribute refers to is the one it
  // was reached from, if it was reached by that attribute.
  function Step(path: seq<Edge>, attributeId: Id, forwards: bool): seq<Edge> {
    if forwards && path != [] && path[|path| - 1] == Edge(attributeId, false) then path[..|path| - 1]
    else path + [Edge(attributeId, forwards)]
  }

  // some record can fulfil the policy: it is not shut out by the function that must let it in
  predicate Satisfiable(policy: seq<Token>) {
    forall c :: c in Clauses(policy) && c.exclude ==> c.(exclude := false) !in Clauses(policy)
  }

  // the latest join from k on, before position i, that has the index; -1 without one
  function JoinOf(s: Select, k: nat, i: nat, index: int): (j: int)
    requires i <= |s.joins|
    ensures j == -1 || k <= j < i
  {
    if i <= k then -1 else if s.joins[i - 1].index == index then i - 1 else JoinOf(s, k, i - 1, index)
  }

  lemma {:induction false} JoinOfFinds(s: Select, k: nat, i: nat, index: int)
    requires i <= |s.joins|
    ensures var j := JoinOf(s, k, i, index);
            if j == -1 then forall x :: k <= x < i ==> s.joins[x].index != index else s.joins[j].index == index
  {
    if i > k && s.joins[i - 1].index != index {
      JoinOfFinds(s, k, i - 1, index);
    }
  }

  lemma JoinOfIs(s: Select, k: nat, i: nat, j: nat)
    requires Valid(s) && k <= j < i <= |s.joins|
    ensures JoinOf(s, k, i, s.joins[j].index) == j
  {
    JoinOfFinds(s, k, i, s.joins[j].index);
  }

  // The steps from the record of join k to the one of join m, if there can be any record of join m beside a
  // record of join k that its policy shuts out: join m starts from such a join, its policy can be fulfilled, and
  // it does not lead back to that record.
  function Path(s: Select, k: nat, m: nat): Option<seq<Edge>>
    requires k <= m < |s.joins|
    decreases m
  {
    if m == k then Some([])
    else
      var c := s.joins[m];
      var j := JoinOf(s, k, m, c.indexFrom);
      if j == -1 || !Satisfiable(c.policy) || Path(s, k, j).None? then None
      else
        var path := Step(Path(s, k, j).value, c.attributeId, c.attributeOnSource);
        if path == [] then None else Some(path)
  }

  // join m need not match, or it can
  predicate LetsThrough(s: Select, k: nat, m: nat)
    requires k <= m < |s.joins|
  {
    KeepsLeft(s.joins[m].connector) || Path(s, k, m).Some?
  }

  // records that the policy of join k shuts out can be in the rows after n joins
  predicate Leaks(s: Select, k: nat, n: nat)
    requires k < n <= |s.joins|
  {
    && s.joins[k].policy != [] && KeepsRight(s.joins[k].connector)
    && forall m :: k < m < n ==> LetsThrough(s, k, m)
  }

  // ---- what is known of compiled joins

  // a compiled join: the attribute decides on the joined relation, and the relation on the policy
  predicate Compiled(sc: Cache, c: JoinClause, nesting: int) {
    && c.attributeId in sc.attributes && sc.attributes[c.attributeId].relationshipId.Some?
    && c.relationId == (if c.attributeOnSource then sc.attributes[c.attributeId].relationshipId.value
                        else sc.attributes[c.attributeId].relationId)
    && c.relationId in sc.relations
    && PolicyFilter(sc, "select", c.index, nesting, sc.relations[c.relationId].policies) == Success(c.policy)
  }

  lemma ReadJoinsAreCompiled(sc: Cache, q: DataGet, clauses: seq<JoinClause>, nesting: int)
    requires JoinsRead(sc, q, clauses, nesting)
    ensures forall c :: c in clauses ==> Compiled(sc, c, nesting)
  {
    forall c | c in clauses
      ensures Compiled(sc, c, nesting)
    {
      var k :| 0 <= k < |clauses| && clauses[k] == c;
      assert JoinReadAt(sc, q, WrittenJoins(q.joins), clauses, nesting, k);
    }
  }

  lemma SameRelationSamePolicy(sc: Cache, c: JoinClause, e: JoinClause, nesting: int)
    requires Compiled(sc, c, nesting) && Compiled(sc, e, nesting) && c.relationId == e.relationId
    ensures Clauses(c.policy) == Clauses(e.policy)
  {
    if sc.relations[c.relationId].policies != [] {
      var names := PolicyNamesFor(sc, "select", sc.access.value.roleIds, sc.relations[c.relationId].policies).value;
      ClausesOfNames(names, c.index, nesting);
      ClausesOfNames(names, e.index, nesting);
    }
  }

  lemma ClausesOfNames(names: PolicyNames, index: int, nested: int)
    ensures Clauses(PolicyClauses(names, index, nested)) ==
            (if names.blacklist.Some? then {Clause(true, names.blacklist.value.0, names.blacklist.value.1)} else {}) +
            (if names.whitelist.Some? then {Clause(false, names.whitelist.value.0, names.whitelist.value.1)} else {})
  {
    var ts := PolicyClauses(names, index, nested);
    if names.blacklist.Some? {
      assert ts[1] in ts;
    }
    if names.whitelist.Some? {
      assert ts[|ts| - 1] in ts;
    }
  }

  // the program does not check it: an attribute of the joined relation refers to the relation it is joined from
  predicate Typed(sc: Cache, s: Select) {
    forall j, m :: 0 <= j < m < |s.joins| && JoinedOutwards(s, j, m) ==>
      Refers(sc, s.joins[m].attributeId, s.joins[j].relationId)
  }

  // join m starts from join j, by an attribute of the relation that it joins
  predicate JoinedOutwards(s: Select, j: nat, m: nat)
    requires j < |s.joins| && m < |s.joins|
  {
    s.joins[j].index == s.joins[m].indexFrom && !s.joins[m].attributeOnSource
  }

  predicate Refers(sc: Cache, attributeId: Id, relationId: Id) {
    attributeId in sc.attributes && sc.attributes[attributeId].relationshipId == Some(relationId)
  }

  predicate AllCompiled(sc: Cache, s: Select) {
    Valid(s) && Typed(sc, s) && forall c :: c in s.joins ==> Compiled(sc, c, s.nested)
  }

  // the relation of the record that some steps lead to
  function RelationAt(sc: Cache, start: Id, path: seq<Edge>): Id {
    if path == [] then start
    else
      var e := path[|path| - 1];
      if e.attributeId !in sc.attributes || sc.attributes[e.attributeId].relationshipId.None? then NIL
      else if e.forwards then sc.attributes[e.attributeId].relationshipId.value
      else sc.attributes[e.attributeId].relationId
  }

  predicate TypedPath(sc: Cache, start: Id, path: seq<Edge>) {
    path == [] ||
    var n := |path| - 1;
    TypedPath(sc, start, path[..n]) &&
        (!path[n].forwards ==> Refers(sc, path[n].attributeId, RelationAt(sc, start, path[..n])))
  }

  lemma StepIsTyped(sc: Cache, start: Id, path: seq<Edge>, c: JoinClause, nesting: int)
    requires TypedPath(sc, start, path) && Compiled(sc, c, nesting)
    requires !c.attributeOnSource ==> Refers(sc, c.attributeId, RelationAt(sc, start, path))
    ensures var next := Step(path, c.attributeId, c.attributeOnSource);
            TypedPath(sc, start, next) && RelationAt(sc, start, next) == c.relationId
  {
    var n := |path| - 1;
    if c.attributeOnSource && path != [] && path[n] == Edge(c.attributeId, false) {
      assert Refers(sc, c.attributeId, RelationAt(sc, start, path[..n]));
    } else {
      var next := path + [Edge(c.attributeId, c.attributeOnSource)];
      assert next[..|path|] == path;
    }
  }

  lemma {:induction false} PathIsTyped(sc: Cache, s: Select, k: nat, m: nat)
    requires AllCompiled(sc, s) && k <= m < |s.joins| && Path(s, k, m).Some?
    ensures TypedPath(sc, s.joins[k].relationId, Path(s, k, m).value)
    ensures RelationAt(sc, s.joins[k].relationId, Path(s, k, m).value) == s.joins[m].relationId
    decreases m
  {
    if m > k {
      var c := s.joins[m];
      var j := JoinOf(s, k, m, c.indexFrom);
      JoinOfFinds(s, k, m, c.indexFrom);
      PathIsTyped(sc, s, k, j);
      StepIsTyped(sc, s.joins[k].relationId, Path(s, k, j).value, c, s.nested);
    }
  }

  // the steps lead from record r0 to record r
  ghost predicate Leads(d: Data, r0: int, path: seq<Edge>, r: int)
    decreases |path|
  {
    if path == [] then r == r0
    else
      var rest, last := path[..|path| - 1], path[|path| - 1];
      exists y :: Leads(d, r0, rest, y) && Linked(d, last, y, r)
  }

  predicate Linked(d: Data, e: Edge, y: int, r: int) {
    if e.forwards then d.refers(e.attributeId, y) == Some(r) else d.refers(e.attributeId, r) == Some(y)
  }

  lemma LeadsOn(d: Data, r0: int, path: seq<Edge>, y: int, e: Edge, r: int)
    requires Leads(d, r0, path, y) && Linked(d, e, y, r)
    ensures Leads(d, r0, Step(path, e.attributeId, e.forwards), r)
  {
    if e.forwards && path != [] && path[|path| - 1] == Edge(e.attributeId, false) {
      var z :| Leads(d, r0, path[..|path| - 1], z) && Linked(d, path[|path| - 1], z, y);
    } else {
      assert (path + [e])[..|path|] == path;
    }
  }

  // ---- rows with a record that is shut out

  // index x shows the record that the path of join m leads to
  ghost predicate Shows(d: Data, s: Select, k: nat, m: nat, r0: int, x: int, r: int)
    requires k <= m < |s.joins|
  {
    s.joins[m].index == x && Path(s, k, m).Some? && Leads(d, r0, Path(s, k, m).value, r)
  }

  ghost predicate AllOnPaths(d: Data, s: Select, k: nat, n: nat, row: Row)
    requires k < n <= |s.joins| && s.joins[k].index in row
  {
    forall x :: x in row ==> exists m :: k <= m < n && Shows(d, s, k, m, row[s.joins[k].index], x, row[x])
  }

  lemma {:induction false} ShutOutRowsLeak(sc: Cache, d: Data, s: Select, k: nat, n: nat, row: Row)
    requires AllCompiled(sc, s) && k < n <= |s.joins|
    requires Joined(d, s, n, row) && s.joins[k].index in row && !Obeys(d, s.joins[k].policy, row[s.joins[k].index])
    ensures Leaks(s, k, n) && AllOnPaths(d, s, k, n, row)
    decreases n
  {
    var m := n - 1;
    if m == k {
      FirstShutOut(d, s, k, row);
    } else if Matched(d, s, n, row) {
      var rest := row - {s.joins[m].index};
      ShutOutRowsLeak(sc, d, s, k, m, rest);
      MatchGoesOn(sc, d, s, k, m, rest, row[s.joins[m].index]);
      OneMoreOnPath(d, s, k, m, row);
      OneMoreLeaks(s, k, m);
    } else {
      assert WithoutRight(d, s, n, row);
      ShutOutRowsLeak(sc, d, s, k, m, row);
      OthersStayOnPaths(d, s, k, m, row);
      OneMoreLeaks(s, k, m);
    }
  }

  lemma FirstShutOut(d: Data, s: Select, k: nat, row: Row)
    requires Valid(s) && k < |s.joins| && Joined(d, s, k + 1, row)
    requires s.joins[k].index in row && !Obeys(d, s.joins[k].policy, row[s.joins[k].index])
    ensures Leaks(s, k, k + 1) && AllOnPaths(d, s, k, k + 1, row)
  {
    var c := s.joins[k];
    assert !Matched(d, s, k + 1, row) && !WithoutRight(d, s, k + 1, row);
    assert WithoutLeft(d, s, k + 1, row);
    assert Shows(d, s, k, k, row[c.index], c.index, row[c.index]);
  }

  lemma OneMoreLeaks(s: Select, k: nat, m: nat)
    requires k < m < |s.joins| && Leaks(s, k, m) && LetsThrough(s, k, m)
    ensures Leaks(s, k, m + 1)
  {
  }

  lemma OthersStayOnPaths(d: Data, s: Select, k: nat, m: nat, row: Row)
    requires k < m < |s.joins| && s.joins[k].index in row && AllOnPaths(d, s, k, m, row)
    ensures AllOnPaths(d, s, k, m + 1, row)
  {
    forall x | x in row
      ensures exists j :: k <= j < m + 1 && Shows(d, s, k, j, row[s.joins[k].index], x, row[x])
    {
      var j :| k <= j < m && Shows(d, s, k, j, row[s.joins[k].index], x, row[x]);
    }
  }

  lemma OneMoreOnPath(d: Data, s: Select, k: nat, m: nat, row: Row)
    requires k < m < |s.joins| && s.joins[m].index in row && s.joins[k].index in row &&
             s.joins[m].index != s.joins[k].index
    requires AllOnPaths(d, s, k, m, row - {s.joins[m].index})
    requires Shows(d, s, k, m, row[s.joins[k].index], s.joins[m].index, row[s.joins[m].index])
    ensures AllOnPaths(d, s, k, m + 1, row)
  {
    var rest := row - {s.joins[m].index};
    forall x | x in row
      ensures exists j :: k <= j < m + 1 && Shows(d, s, k, j, row[s.joins[k].index], x, row[x])
    {
      if x in rest {
        var j :| k <= j < m && Shows(d, s, k, j, rest[s.joins[k].index], x, rest[x]);
      }
    }
  }

  // a join that matches goes on along its path
  lemma MatchGoesOn(sc: Cache, d: Data, s: Select, k: nat, m: nat, row: Row, r: int)
    requires AllCompiled(sc, s) && k < m < |s.joins| && s.joins[k].index in row && AllOnPaths(d, s, k, m, row)
    requires !Obeys(d, s.joins[k].policy, row[s.joins[k].index]) && On(d, s.joins[m], row, r)
    ensures Shows(d, s, k, m, row[s.joins[k].index], s.joins[m].index, r)
  {
    var c, r0 := s.joins[m], row[s.joins[k].index];
    var j :| k <= j < m && Shows(d, s, k, j, r0, c.indexFrom, row[c.indexFrom]);
    JoinOfIs(s, k, m, j);
    assert Satisfiable(c.policy);
    var path := Path(s, k, j).value;
    LeadsOn(d, r0, path, row[c.indexFrom], Edge(c.attributeId, c.attributeOnSource), r);
    if Step(path, c.attributeId, c.attributeOnSource) == [] {
      PathIsTyped(sc, s, k, j);
      StepIsTyped(sc, s.joins[k].relationId, path, c, s.nested);
      SameRelationSamePolicy(sc, c, s.joins[k], s.nested);
      assert false;
    }
  }

  // ---- data in which such records get through

  function Pow2(n: nat): (r: nat)
    ensures r > 0
  {
    if n == 0 then 1 else 2 * Pow2(n - 1)
  }

  lemma {:induction false} PairIsInjective(x: nat, y: nat, u: nat, v: nat)
    requires Pow2(x) * (2 * y + 1) == Pow2(u) * (2 * v + 1)
    ensures x == u && y == v
  {
    Halves(x, y);
    Halves(u, v);
    if x > 0 && u > 0 {
      PairIsInjective(x - 1, y, u - 1, v);
    }
  }

  lemma Halves(x: nat, y: nat)
    ensures x > 0 ==> Pow2(x) * (2 * y + 1) == 2 * (Pow2(x - 1) * (2 * y + 1))
  {
    if x > 0 {
      var half := Pow2(x - 1);
      assert Pow2(x) == 2 * half;
      assert (2 * half) * (2 * y + 1) == 2 * (half * (2 * y + 1));
    }
  }

  function EdgeNumber(e: Edge): nat {
    2 * e.attributeId + if e.forwards then 1 else 0
  }

  // the ID of the record that some steps lead to; 0 is the one without any step
  function RecordAt(path: seq<Edge>): (record: nat)
    ensures record == 0 <==> path == []
  {
    if path == [] then 0
    else
      var n := |path| - 1;
      Positive(Pow2(RecordAt(path[..n])), 2 * EdgeNumber(path[n]) + 1);
      Pow2(RecordAt(path[..n])) * (2 * EdgeNumber(path[n]) + 1)
  }

  lemma Positive(x: nat, y: nat)
    requires x > 0 && y > 0
    ensures x * y > 0
  {
  }

  lemma {:induction false} RecordAtIsInjective(p: seq<Edge>, q: seq<Edge>)
    requires RecordAt(p) == RecordAt(q)
    ensures p == q
    decreases |p|
  {
    if p != [] {
      var i, j := |p| - 1, |q| - 1;
      PairIsInjective(RecordAt(p[..i]), EdgeNumber(p[i]), RecordAt(q[..j]), EdgeNumber(q[j]));
      RecordAtIsInjective(p[..i], q[..j]);
      assert p[i] == q[j];
      assert p == p[..i] + [p[i]] && q == q[..j] + [q[j]];
    }
  }

  // the records of the joins that match
  function RecordsOf(s: Select, k: nat, n: nat): set<int>
    requires n <= |s.joins|
  {
    set m: nat | k <= m < n && Path(s, k, m).Some? :: RecordAt(Path(s, k, m).value)
  }

  ghost function ReferredBy(records: set<int>, attributeId: Id, record: int): Option<int> {
    if path: seq<Edge> :| RecordAt(path) == record && RecordAt(Step(path, attributeId, true)) in records
    then Some(RecordAt(Step(path, attributeId, true))) else None
  }

  lemma ReferredByStep(records: set<int>, attributeId: Id, path: seq<Edge>)
    requires RecordAt(Step(path, attributeId, true)) in records
    ensures ReferredBy(records, attributeId, RecordAt(path)) == Some(RecordAt(Step(path, attributeId, true)))
  {
    forall p: seq<Edge> | RecordAt(p) == RecordAt(path)
      ensures p == path
    {
      RecordAtIsInjective(p, path);
    }
  }

  // a policy function returns the records that it has to let in, and the one that it is to shut out
  function ListOf(s: Select, k: nat, n: nat, fncModule: string, fncName: string): set<int>
    requires k < n <= |s.joins|
  {
    (set m: nat | k < m < n && LetsIn(s, k, m, fncModule, fncName) :: RecordAt(Path(s, k, m).value)) +
    if Clause(true, fncModule, fncName) in Clauses(s.joins[k].policy) then {0} else {}
  }

  predicate LetsIn(s: Select, k: nat, m: nat, fncModule: string, fncName: string)
    requires k <= m < |s.joins|
    ensures LetsIn(s, k, m, fncModule, fncName) ==> Path(s, k, m).Some?
  {
    Path(s, k, m).Some? && Clause(false, fncModule, fncName) in Clauses(s.joins[m].policy)
  }

  ghost function LeakyData(s: Select, k: nat, n: nat): Data
    requires k < n <= |s.joins|
  {
    var records := RecordsOf(s, k, n);
    Data(_ => records, (a: Id, r) => ReferredBy(records, a, r), (m, f) => ListOf(s, k, n, m, f))
  }

  lemma StartIsShutOut(s: Select, k: nat, n: nat)
    requires k < n <= |s.joins| && Clauses(s.joins[k].policy) != {}
    ensures !Obeys(LeakyData(s, k, n), s.joins[k].policy, 0)
  {
    var clauses := Clauses(s.joins[k].policy);
    var c :| c in clauses;
    if e :| e in clauses && e.exclude {
      assert 0 in ListOf(s, k, n, e.fncModule, e.fncName);
    } else {
      assert Clause(true, c.fncModule, c.fncName) !in clauses;
      assert 0 !in ListOf(s, k, n, c.fncModule, c.fncName);
    }
  }

  lemma RecordsOnPathsAreLetIn(sc: Cache, s: Select, k: nat, n: nat, m: nat)
    requires AllCompiled(sc, s) && k < m < n <= |s.joins| && Path(s, k, m).Some?
    ensures Obeys(LeakyData(s, k, n), s.joins[m].policy, RecordAt(Path(s, k, m).value))
  {
    var clauses, record := Clauses(s.joins[m].policy), RecordAt(Path(s, k, m).value);
    forall c | c in clauses
      ensures record in ListOf(s, k, n, c.fncModule, c.fncName) <==> !c.exclude
    {
      if !c.exclude {
        assert LetsIn(s, k, m, c.fncModule, c.fncName);
      } else if record in ListOf(s, k, n, c.fncModule, c.fncName) {
        var x: nat :| k < x < n && LetsIn(s, k, x, c.fncModule, c.fncName) && RecordAt(Path(s, k, x).value) == record;
        RecordAtIsInjective(Path(s, k, x).value, Path(s, k, m).value);
        PathIsTyped(sc, s, k, x);
        PathIsTyped(sc, s, k, m);
        SameRelationSamePolicy(sc, s.joins[x], s.joins[m], s.nested);
        assert false;
      }
    }
  }

  // the records that can be matched, by join
  function Matches(s: Select, k: nat): (ms: seq<Option<int>>)
    requires k < |s.joins|
    ensures |ms| == |s.joins|
  {
    seq(|s.joins|, m requires 0 <= m < |s.joins| => MatchAt(s, k, m))
  }

  function MatchAt(s: Select, k: nat, m: nat): Option<int>
    requires k < |s.joins| && m < |s.joins|
  {
    if m < k || Path(s, k, m).None? then None else Some(RecordAt(Path(s, k, m).value))
  }

  function Indexes(s: Select): (indexes: seq<int>)
    ensures |indexes| == |s.joins|
  {
    seq(|s.joins|, m requires 0 <= m < |s.joins| => s.joins[m].index)
  }

  // the row that shows them all
  function RowOf(indexes: seq<int>, matches: seq<Option<int>>, n: nat): Row
    requires n <= |indexes| == |matches|
  {
    if n == 0 then map[]
    else
      var row := RowOf(indexes, matches, n - 1);
      if matches[n - 1].Some? then row[indexes[n - 1] := matches[n - 1].value] else row
  }

  lemma {:induction false} RowOfShows(indexes: seq<int>, matches: seq<Option<int>>, n: nat)
    requires n <= |indexes| == |matches|
    requires forall j, m :: 0 <= j < m < |indexes| ==> indexes[j] != indexes[m]
    ensures forall x :: x in RowOf(indexes, matches, n) ==>
              exists m :: 0 <= m < n && matches[m].Some? && indexes[m] == x
    ensures forall m :: 0 <= m < n && matches[m].Some? ==>
              indexes[m] in RowOf(indexes, matches, n) && RowOf(indexes, matches, n)[indexes[m]] == matches[m].value
    ensures forall m :: n <= m < |indexes| ==> indexes[m] !in RowOf(indexes, matches, n)
  {
    if n > 0 {
      RowOfShows(indexes, matches, n - 1);
    }
  }

  function RowTo(s: Select, k: nat, n: nat): Row
    requires k < n <= |s.joins|
  {
    RowOf(Indexes(s), Matches(s, k), n)
  }

  lemma RowShows(s: Select, k: nat, n: nat, m: nat)
    requires Valid(s) && k <= m < n <= |s.joins| && Path(s, k, m).Some?
    ensures s.joins[m].index in RowTo(s, k, n) && RowTo(s, k, n)[s.joins[m].index] == RecordAt(Path(s, k, m).value)
  {
    RowOfShows(Indexes(s), Matches(s, k), n);
    assert Matches(s, k)[m] == Some(RecordAt(Path(s, k, m).value)) && Indexes(s)[m] == s.joins[m].index;
  }

  lemma ShownBy(s: Select, k: nat, n: nat, x: int) returns (m: nat)
    requires Valid(s) && k < n <= |s.joins| && x in RowTo(s, k, n)
    ensures k <= m < n && Path(s, k, m).Some? && s.joins[m].index == x &&
            RowTo(s, k, n)[x] == RecordAt(Path(s, k, m).value)
  {
    RowOfShows(Indexes(s), Matches(s, k), n);
    m :| 0 <= m < n && Matches(s, k)[m].Some? && Indexes(s)[m] == x;
  }

  lemma RowGrows(s: Select, k: nat, m: nat)
    requires Valid(s) && k < m < |s.joins|
    ensures s.joins[m].index !in RowTo(s, k, m)
    ensures RowTo(s, k, m + 1) ==
            match Path(s, k, m)
            case Some(path) => RowTo(s, k, m)[s.joins[m].index := RecordAt(path)]
            case None => RowTo(s, k, m)
  {
    RowOfShows(Indexes(s), Matches(s, k), m);
    assert Indexes(s)[m] == s.joins[m].index && Matches(s, k)[m] == MatchAt(s, k, m);
  }

  lemma FirstRow(s: Select, k: nat)
    requires Valid(s) && k < |s.joins|
    ensures RowTo(s, k, k + 1) == map[s.joins[k].index := 0]
  {
    NothingBefore(Indexes(s), Matches(s, k), k);
    assert Path(s, k, k) == Some([]);
    assert Matches(s, k)[k] == Some(0) && Indexes(s)[k] == s.joins[k].index;
  }

  lemma {:induction false} NothingBefore(indexes: seq<int>, matches: seq<Option<int>>, n: nat)
    requires n <= |indexes| == |matches| && forall m :: 0 <= m < n ==> matches[m].None?
    ensures RowOf(indexes, matches, n) == map[]
  {
    if n > 0 {
      NothingBefore(indexes, matches, n - 1);
    }
  }

  // ---- one join after the other

  lemma MatchJoins(d: Data, s: Select, m: nat, row: Row, record: int)
    requires m < |s.joins| && Joined(d, s, m, row) && s.joins[m].index !in row
    requires record in d.records(s.joins[m].relationId) && On(d, s.joins[m], row, record)
    ensures Joined(d, s, m + 1, row[s.joins[m].index := record])
  {
    var next := row[s.joins[m].index := record];
    assert next - {s.joins[m].index} == row;
    assert Matched(d, s, m + 1, next);
  }

  lemma NullsJoin(d: Data, s: Select, m: nat, row: Row)
    requires m < |s.joins| && Joined(d, s, m, row) && s.joins[m].index !in row && KeepsLeft(s.joins[m].connector)
    requires forall record :: record in d.records(s.joins[m].relationId) ==> !On(d, s.joins[m], row, record)
    ensures Joined(d, s, m + 1, row)
  {
    assert WithoutRight(d, s, m + 1, row);
  }

  lemma EdgesHold(s: Select, k: nat, n: nat, m: nat, j: nat)
    requires k <= j < m < n <= |s.joins| && Path(s, k, j).Some? && Path(s, k, m).Some?
    requires var c := s.joins[m]; Path(s, k, m).value == Step(Path(s, k, j).value, c.attributeId, c.attributeOnSource)
    ensures var c := s.joins[m];
            Linked(LeakyData(s, k, n), Edge(c.attributeId, c.attributeOnSource),
                   RecordAt(Path(s, k, j).value), RecordAt(Path(s, k, m).value))
  {
    var c, from, to := s.joins[m], Path(s, k, j).value, Path(s, k, m).value;
    assert RecordAt(from) in RecordsOf(s, k, n) && RecordAt(to) in RecordsOf(s, k, n);
    if c.attributeOnSource {
      ReferredByStep(RecordsOf(s, k, n), c.attributeId, from);
    } else {
      assert to == from + [Edge(c.attributeId, false)] && to[..|from|] == from;
      ReferredByStep(RecordsOf(s, k, n), c.attributeId, to);
    }
  }

  lemma PathMatches(sc: Cache, s: Select, k: nat, n: nat, m: nat)
    requires AllCompiled(sc, s) && k < m < n <= |s.joins| && Path(s, k, m).Some?
    ensures On(LeakyData(s, k, n), s.joins[m], RowTo(s, k, m), RecordAt(Path(s, k, m).value))
  {
    var c := s.joins[m];
    var j := JoinOf(s, k, m, c.indexFrom);
    JoinOfFinds(s, k, m, c.indexFrom);
    RowShows(s, k, m, j);
    EdgesHold(s, k, n, m, j);
    RecordsOnPathsAreLetIn(sc, s, k, n, m);
  }

  lemma NothingMatches(sc: Cache, s: Select, k: nat, n: nat, m: nat, record: int)
    requires AllCompiled(sc, s) && k < m < n <= |s.joins| && Path(s, k, m).None? && Clauses(s.joins[k].policy) != {}
    ensures !On(LeakyData(s, k, n), s.joins[m], RowTo(s, k, m), record)
  {
    var c := s.joins[m];
    if On(LeakyData(s, k, n), c, RowTo(s, k, m), record) {
      var j := ShownBy(s, k, m, c.indexFrom);
      JoinOfIs(s, k, m, j);
      FulfilledIsSatisfiable(LeakyData(s, k, n), c.policy, record);
      BackAtStart(sc, s, k, n, m, j);
      assert false;
    }
  }

  lemma FulfilledIsSatisfiable(d: Data, policy: seq<Token>, record: int)
    requires Obeys(d, policy, record)
    ensures Satisfiable(policy)
  {
  }

  // a join that leads back finds nothing but the record that its policy shuts out
  lemma BackAtStart(sc: Cache, s: Select, k: nat, n: nat, m: nat, j: nat)
    requires AllCompiled(sc, s) && k <= j < m < n <= |s.joins| && Path(s, k, j).Some? &&
             s.joins[j].index == s.joins[m].indexFrom
    requires Step(Path(s, k, j).value, s.joins[m].attributeId, s.joins[m].attributeOnSource) == []
    requires Clauses(s.joins[k].policy) != {}
    ensures s.joins[m].attributeOnSource && !Obeys(LeakyData(s, k, n), s.joins[m].policy, 0)
    ensures LeakyData(s, k, n).refers(s.joins[m].attributeId, RecordAt(Path(s, k, j).value)) == Some(0)
  {
    var path := Path(s, k, j).value;
    PathIsTyped(sc, s, k, j);
    StepIsTyped(sc, s.joins[k].relationId, path, s.joins[m], s.nested);
    SameRelationSamePolicy(sc, s.joins[m], s.joins[k], s.nested);
    StartIsShutOut(s, k, n);
    assert Path(s, k, k) == Some([]);
    assert RecordAt(Path(s, k, k).value) in RecordsOf(s, k, n);
    ReferredByStep(RecordsOf(s, k, n), s.joins[m].attributeId, path);
  }

  ghost predicate RowJoined(s: Select, k: nat, n: nat, i: nat)
    requires k < i <= n <= |s.joins|
  {
    Joined(LeakyData(s, k, n), s, i, RowTo(s, k, i))
  }

  lemma LeakStays(sc: Cache, s: Select, k: nat, n: nat)
    requires AllCompiled(sc, s) && k < n <= |s.joins| && Leaks(s, k, n) && Clauses(s.joins[k].policy) != {}
    ensures RowJoined(s, k, n, n)
  {
    FirstLeaks(s, k, n);
    for i := k + 1 to n
      invariant RowJoined(s, k, n, i)
    {
      LeakGoesOn(sc, s, k, n, i);
    }
  }

  lemma LeakGoesOn(sc: Cache, s: Select, k: nat, n: nat, m: nat)
    requires AllCompiled(sc, s) && k < m < n <= |s.joins| && Clauses(s.joins[k].policy) != {}
    requires LetsThrough(s, k, m) && RowJoined(s, k, n, m)
    ensures RowJoined(s, k, n, m + 1)
  {
    var d, row := LeakyData(s, k, n), RowTo(s, k, m);
    RowGrows(s, k, m);
    if Path(s, k, m).Some? {
      PathMatches(sc, s, k, n, m);
      assert RecordAt(Path(s, k, m).value) in RecordsOf(s, k, n);
      MatchJoins(d, s, m, row, RecordAt(Path(s, k, m).value));
    } else {
      forall record
        ensures !On(d, s.joins[m], row, record)
      {
        NothingMatches(sc, s, k, n, m, record);
      }
      NullsJoin(d, s, m, row);
    }
  }

  lemma FirstLeaks(s: Select, k: nat, n: nat)
    requires Valid(s) && k < n <= |s.joins| && KeepsRight(s.joins[k].connector) && Clauses(s.joins[k].policy) != {}
    ensures RowJoined(s, k, n, k + 1)
  {
    StartIsShutOut(s, k, n);
    assert Path(s, k, k) == Some([]);
    assert RecordAt(Path(s, k, k).value) in RecordsOf(s, k, n);
    FirstRow(s, k);
    assert WithoutLeft(LeakyData(s, k, n), s, k + 1, map[s.joins[k].index := 0]);
  }

  // ---- the rows of a compiled query

  lemma PolicyHasClauses(policy: seq<Token>)
    requires IsPolicy(policy) && policy != []
    ensures Clauses(policy) != {}
  {
    assert policy[1] in policy;
    assert Clause(policy[1].exclude, policy[1].fncModule, policy[1].fncName) in Clauses(policy);
  }

  // The joins of a compiled query are those of the request, each in the direction of its attribute: from the
  // relation that its starting index stands for, or to it.
  lemma QueryIsCompiled(sc: Cache, q: DataGet, args: Args, nesting: nat)
    requires PrepareQuery(sc, q, args, nesting).Success?
    ensures var s := PrepareQuery(sc, q, args, nesting).value.sql;
            && s.nested == nesting && s.index == q.indexSource && s.relationId == q.relationId
            && JoinsRead(sc, q, s.joins, nesting) && forall c :: c in s.joins ==> Compiled(sc, c, nesting)
  {
    QueryReads(sc, q, args, nesting);
    ReadJoinsAreCompiled(sc, q, PrepareQuery(sc, q, args, nesting).value.sql.joins, nesting);
  }

  // At every query level, for the rows that any number of joins yields: the records of a joined relation fulfil
  // its policy, whatever the data, if and only if there is no policy, or the join is INNER or LEFT, or an INNER
  // or RIGHT join behind it can match none of the records beside one that the policy shuts out.
  lemma JoinObeysPolicyIff(sc: Cache, q: DataGet, args: Args, nesting: nat, k: nat, n: nat)
    requires PrepareQuery(sc, q, args, nesting).Success?
    requires var s := PrepareQuery(sc, q, args, nesting).value.sql; Valid(s) && Typed(sc, s) && k < n <= |s.joins|
    ensures var s := PrepareQuery(sc, q, args, nesting).value.sql;
            var c := s.joins[k];
            (forall d: Data, row: Row :: Joined(d, s, n, row) && c.index in row ==>
                  Obeys(d, c.policy, row[c.index])) <==>
            !Leaks(s, k, n)
  {
    QueryIsCompiled(sc, q, args, nesting);
    JoinObeysIff(sc, PrepareQuery(sc, q, args, nesting).value.sql, k, n);
  }

  lemma JoinObeysIff(sc: Cache, s: Select, k: nat, n: nat)
    requires AllCompiled(sc, s) && k < n <= |s.joins|
    ensures var c := s.joins[k];
            (forall d: Data, row: Row :: Joined(d, s, n, row) && c.index in row ==>
                  Obeys(d, c.policy, row[c.index])) <==>
            !Leaks(s, k, n)
  {
    var c := s.joins[k];
    if Leaks(s, k, n) {
      assert c in s.joins;
      PolicyFilterIsPolicy(sc, "select", c.index, s.nested, sc.relations[c.relationId].policies);
      PolicyHasClauses(c.policy);
      LeakStays(sc, s, k, n);
      RowShows(s, k, n, k);
      StartIsShutOut(s, k, n);
      assert Path(s, k, k) == Some([]);
    } else {
      forall d: Data, row: Row | Joined(d, s, n, row) && c.index in row
        ensures Obeys(d, c.policy, row[c.index])
      {
        if !Obeys(d, c.policy, row[c.index]) {
          ShutOutRowsLeak(sc, d, s, k, n, row);
        }
      }
    }
  }

  // A request for relation 1 that joins relation 2 from the right, with a policy that shuts records of relation 2
  // out: without any filter, it returns such a record beside nulls.
  lemma RightJoinEscapesPolicy() returns (sc: Cache, q: DataGet, d: Data, row: Row)
    ensures PrepareQuery(sc, q, Args([], Some([])), 0).Success?
    ensures var s := PrepareQuery(sc, q, Args([], Some([])), 0).value.sql;
            && |s.joins| == 1 && s.where == [] && Joined(d, s, 1, row)
            && s.joins[0].index in row && !Obeys(d, s.joins[0].policy, row[s.joins[0].index])
  {
    q := DataGet(1, 0, [Join(3, RightJoin, 1, 0)], [], []);
    sc := Cache(map[5 := "m"], map[1 := Relation(5, "a", []), 2 := Relation(5, "b", [ExamplePolicy()])],
                map[3 := Attribute(1, "b", Relationship, Some(2))], map[4 := PgFunction(5, "f")], {},
                Some(Access({6}, map[], map[])));
    PolicyOfExample(sc);
    var c := JoinClause(RightJoin, 2, 1, 0, 3, true, [And, Policy(1, 0, true, "m", "f")]);
    ExampleCompiles(sc, q, c);
    d, row := LoneJoinLeaks(sc, q, c);
  }

  lemma LoneJoinLeaks(sc: Cache, q: DataGet, c: JoinClause) returns (d: Data, row: Row)
    requires PrepareQuery(sc, q, Args([], Some([])), 0).Success?
    requires var s := PrepareQuery(sc, q, Args([], Some([])), 0).value.sql;
             s.joins == [c] && s.index == c.indexFrom != c.index
    requires KeepsRight(c.connector) && c.policy != []
    ensures Joined(d, PrepareQuery(sc, q, Args([], Some([])), 0).value.sql, 1, row)
    ensures c.index in row && !Obeys(d, c.policy, row[c.index])
  {
    JoinObeysPolicyIff(sc, q, Args([], Some([])), 0, 0, 1);
    d, row :| Joined(d, PrepareQuery(sc, q, Args([], Some([])), 0).value.sql, 1, row) &&
              c.index in row && !Obeys(d, c.policy, row[c.index]);
  }

  lemma ExampleCompiles(sc: Cache, q: DataGet, c: JoinClause)
    requires q.joins != [] && q == DataGet(1, 0, [q.joins[0]], [], []) && q.joins[0].indexFrom != -1
    requires 1 in sc.relations && sc.relations[1].policies == [] && sc.relations[1].moduleId in sc.modules
    requires AddJoin(sc, map[0 := 1], q.joins[0], 0).Success? && AddJoin(sc, map[0 := 1], q.joins[0], 0).value.1 == c
    ensures PrepareQuery(sc, q, Args([], Some([])), 0).Success?
    ensures var s := PrepareQuery(sc, q, Args([], Some([])), 0).value.sql;
            s.index == 0 && s.joins == [c] && s.where == []
  {
    var args := Args([], Some([]));
    var rels := AddJoin(sc, map[0 := 1], q.joins[0], 0).value.0;
    var rest := q.joins[1..];
    assert rest == [] && q.joins == [q.joins[0]] && [] + [c] == [c];
    assert AddJoins(sc, rels, rest, [c], 0) == Success((rels, [c]));
    assert AddJoins(sc, map[0 := 1], q.joins, [], 0) == Success((rels, [c]));
    assert AddFilters(sc, q, 0, [], args, 0) == Success(([], args));
    assert AddExpressions(sc, q, 0, [], args, 0) == Success(([], args));
  }

  function ExamplePolicy(): RelationPolicy {
    RelationPolicy(6, false, true, false, Some(4), None)
  }

  lemma PolicyOfExample(sc: Cache)
    requires sc.functions == map[4 := PgFunction(5, "f")] && sc.modules == map[5 := "m"]
    requires sc.access.Some? && sc.access.value.roleIds == {6}
    ensures PolicyFilter(sc, "select", 1, 0, [ExamplePolicy()]) == Success([And, Policy(1, 0, true, "m", "f")])
  {
    assert ["delete", "select", "update"][1] == "select";
    assert NamesOf(sc, ExamplePolicy()) == Success(PolicyNames(Some(("m", "f")), None));
    FirstMatchingPolicyDecides(sc, "select", {6}, [ExamplePolicy()], 0);
    var clause := [And, Policy(1, 0, true, "m", "f")];
    assert clause + [] == clause;
  }
}
