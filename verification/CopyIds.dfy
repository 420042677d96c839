/** Copies of queries and columns get new IDs throughout, and the IDs of copied fields in their filters
    (schema/copy.go). */
module CopyIds {
  import opened Wrappers
  import opened DataRequest

  // rest: everything that a copy keeps as it is
  datatype Query = Query(id: Id, filters: seq<QueryFilter>, choices: seq<Choice>, rest: string)

  datatype Choice = Choice(id: Id, filters: seq<QueryFilter>, rest: string)

  datatype QueryFilter = QueryFilter(side0: FilterSide, side1: FilterSide, rest: string)

  // a query is used, and copied, only if the content is a sub query
  datatype FilterSide = FilterSide(isSubQuery: bool, query: Query, fieldId: Option<Id>, rest: string)

  // a query as a caller holds it: its lists stay where they are when it is handed over
  datatype HeldQuery = HeldQuery(id: Id, filters: array<QueryFilter>, choices: array<Choice>, rest: string)

  function ValueOf(q: HeldQuery): Query
    reads q.filters, q.choices
  {
    Query(q.id, q.filters[..], q.choices[..], q.rest)
  }

  datatype Column = Column(id: Id, subQuery: bool, query: Query, rest: string)

  // ---- the copy as a renaming

  function Renamed(m: map<Id, Id>, id: Id): Id {
    if id in m then m[id] else id
  }

  function RenameSide(m: map<Id, Id>, s: FilterSide): FilterSide
    decreases s
  {
    s.(query := if s.isSubQuery then RenameQuery(m, s.query) else s.query,
       fieldId := if s.fieldId.Some? then Some(Renamed(m, s.fieldId.value)) else None)
  }

  function RenameFilter(m: map<Id, Id>, f: QueryFilter): QueryFilter
    decreases f
  {
    f.(side0 := RenameSide(m, f.side0), side1 := RenameSide(m, f.side1))
  }

  function RenameFilters(m: map<Id, Id>, fs: seq<QueryFilter>): (r: seq<QueryFilter>)
    ensures |r| == |fs|
    decreases fs
  {
    if fs == [] then [] else RenameFilters(m, fs[..|fs| - 1]) + [RenameFilter(m, fs[|fs| - 1])]
  }

  function RenameChoice(m: map<Id, Id>, c: Choice): Choice
    decreases c
  {
    c.(id := Renamed(m, c.id), filters := RenameFilters(m, c.filters))
  }

  function RenameChoices(m: map<Id, Id>, cs: seq<Choice>): (r: seq<Choice>)
    ensures |r| == |cs|
    decreases cs
  {
    if cs == [] then [] else RenameChoices(m, cs[..|cs| - 1]) + [RenameChoice(m, cs[|cs| - 1])]
  }

  function RenameQuery(m: map<Id, Id>, q: Query): Query
    decreases q
  {
    q.(id := Renamed(m, q.id), filters := RenameFilters(m, q.filters), choices := RenameChoices(m, q.choices))
  }

  function RenameColumn(m: map<Id, Id>, c: Column): Column {
    c.(id := Renamed(m, c.id), query := if c.subQuery then RenameQuery(m, c.query) else c.query)
  }

  function RenameColumns(m: map<Id, Id>, cs: seq<Column>): (r: seq<Column>)
    ensures |r| == |cs|
  {
    if cs == [] then [] else RenameColumns(m, cs[..|cs| - 1]) + [RenameColumn(m, cs[|cs| - 1])]
  }

  // ---- what a copy does to the IDs, one after the other: replace one, or look one up

  datatype Mark = New(id: Id) | Field(id: Id)

  function FieldMarks(s: FilterSide): seq<Mark> {
    if s.fieldId.Some? then [Field(s.fieldId.value)] else []
  }

  function SubQueryMarks(s: FilterSide): seq<Mark>
    decreases s
  {
    if s.isSubQuery then QueryMarks(s.query) else []
  }

  function FilterMarks(f: QueryFilter): seq<Mark>
    decreases f
  {
    SubQueryMarks(f.side0) + SubQueryMarks(f.side1) + (FieldMarks(f.side0) + FieldMarks(f.side1))
  }

  function FiltersMarks(fs: seq<QueryFilter>): seq<Mark>
    decreases fs
  {
    if fs == [] then [] else FiltersMarks(fs[..|fs| - 1]) + FilterMarks(fs[|fs| - 1])
  }

  function ChoiceMarks(c: Choice): seq<Mark>
    decreases c
  {
    [New(c.id)] + FiltersMarks(c.filters)
  }

  function ChoicesMarks(cs: seq<Choice>): seq<Mark>
    decreases cs
  {
    if cs == [] then [] else ChoicesMarks(cs[..|cs| - 1]) + ChoiceMarks(cs[|cs| - 1])
  }

  function QueryMarks(q: Query): seq<Mark>
    decreases q
  {
    [New(q.id)] + FiltersMarks(q.filters) + ChoicesMarks(q.choices)
  }

  function ColumnQueryMarks(c: Column): seq<Mark> {
    if c.subQuery then QueryMarks(c.query) else []
  }

  function ColumnMarks(c: Column): seq<Mark> {
    [New(c.id)] + ColumnQueryMarks(c)
  }

  function ColumnsMarks(cs: seq<Column>): seq<Mark> {
    if cs == [] then [] else ColumnsMarks(cs[..|cs| - 1]) + ColumnMarks(cs[|cs| - 1])
  }

  // the map of replaced IDs, and the next ID that nobody has used
  datatype Progress = Progress(replaced: map<Id, Id>, next: Id)

  function Process(marks: seq<Mark>, p: Progress): Option<Progress> {
    if marks == [] then Some(p)
    else
      var before := Process(marks[..|marks| - 1], p);
      if before.None? then None
      else
        match marks[|marks| - 1]
        case New(id) => Some(Progress(before.value.replaced[id := before.value.next], before.value.next + 1))
        case Field(id) => if id in before.value.replaced then before else None
  }

  // no ID is replaced twice
  predicate NewOnce(marks: seq<Mark>, m: map<Id, Id>) {
    && (forall k :: 0 <= k < |marks| && marks[k].New? ==> marks[k].id !in m)
    && (forall j, k :: 0 <= j < k < |marks| && marks[j].New? && marks[k].New? ==> marks[j].id != marks[k].id)
  }

  predicate Extends(m: map<Id, Id>, n: map<Id, Id>) {
    forall id :: id in m ==> id in n && n[id] == m[id]
  }

  predicate Covers(m: map<Id, Id>, marks: seq<Mark>) {
    forall mark :: mark in marks ==> mark.id in m
  }

  lemma {:induction false} ProcessSplits(a: seq<Mark>, b: seq<Mark>, p: Progress)
    ensures Process(a + b, p) == if Process(a, p).Some? then Process(b, Process(a, p).value) else None
    decreases b
  {
    if b == [] {
      assert a + b == a;
    } else {
      var n := |b| - 1;
      assert (a + b)[..|a| + n] == a + b[..n];
      ProcessSplits(a, b[..n], p);
    }
  }

  // What a successful processing does to the map, if no ID is replaced twice.
  lemma {:induction false} ProcessExtends(marks: seq<Mark>, p: Progress)
    requires NewOnce(marks, p.replaced) && Process(marks, p).Some?
    ensures var q := Process(marks, p).value;
            && Extends(p.replaced, q.replaced) && Covers(q.replaced, marks) && q.next >= p.next
            && forall id :: id in q.replaced ==>
                  id in p.replaced || (New(id) in marks && p.next <= q.replaced[id] < q.next)
  {
    if marks != [] {
      var n := |marks| - 1;
      ProcessExtends(marks[..n], p);
      assert marks == marks[..n] + [marks[n]];
      var before := Process(marks[..n], p).value;
      if marks[n].New? {
        assert marks[n].id !in before.replaced;
      }
    }
  }

  lemma {:induction false} NewOnceSplits(a: seq<Mark>, b: seq<Mark>, p: Progress)
    requires NewOnce(a + b, p.replaced) && Process(a, p).Some?
    ensures NewOnce(a, p.replaced) && NewOnce(b, Process(a, p).value.replaced)
  {
    var ab := a + b;
    assert forall k :: 0 <= k < |a| ==> ab[k] == a[k];
    assert forall k :: 0 <= k < |b| ==> ab[|a| + k] == b[k];
    ProcessExtends(a, p);
    forall k | 0 <= k < |b| && b[k].New?
      ensures b[k].id !in Process(a, p).value.replaced
    {
      assert forall j :: 0 <= j < |a| && a[j].New? ==> ab[j].id != ab[|a| + k].id;
    }
  }

  // ---- a renaming depends on the marked IDs alone

  lemma {:induction false} SameSide(m: map<Id, Id>, n: map<Id, Id>, s: FilterSide)
    requires Extends(m, n) && Covers(m, SubQueryMarks(s)) && Covers(m, FieldMarks(s))
    ensures RenameSide(m, s) == RenameSide(n, s)
    decreases s
  {
    if s.fieldId.Some? {
      assert Field(s.fieldId.value) in FieldMarks(s);
    }
    if s.isSubQuery {
      SameQuery(m, n, s.query);
    }
  }

  lemma {:induction false} SameFilter(m: map<Id, Id>, n: map<Id, Id>, f: QueryFilter)
    requires Extends(m, n) && Covers(m, FilterMarks(f))
    ensures RenameFilter(m, f) == RenameFilter(n, f)
    decreases f
  {
    SameSide(m, n, f.side0);
    SameSide(m, n, f.side1);
  }

  lemma {:induction false} SameFilters(m: map<Id, Id>, n: map<Id, Id>, fs: seq<QueryFilter>)
    requires Extends(m, n) && Covers(m, FiltersMarks(fs))
    ensures RenameFilters(m, fs) == RenameFilters(n, fs)
    decreases fs
  {
    if fs != [] {
      SameFilters(m, n, fs[..|fs| - 1]);
      SameFilter(m, n, fs[|fs| - 1]);
    }
  }

  lemma {:induction false} SameChoice(m: map<Id, Id>, n: map<Id, Id>, c: Choice)
    requires Extends(m, n) && Covers(m, ChoiceMarks(c))
    ensures RenameChoice(m, c) == RenameChoice(n, c)
    decreases c
  {
    assert New(c.id) in ChoiceMarks(c);
    SameFilters(m, n, c.filters);
  }

  lemma {:induction false} SameChoices(m: map<Id, Id>, n: map<Id, Id>, cs: seq<Choice>)
    requires Extends(m, n) && Covers(m, ChoicesMarks(cs))
    ensures RenameChoices(m, cs) == RenameChoices(n, cs)
    decreases cs
  {
    if cs != [] {
      SameChoices(m, n, cs[..|cs| - 1]);
      SameChoice(m, n, cs[|cs| - 1]);
    }
  }

  lemma {:induction false} SameQuery(m: map<Id, Id>, n: map<Id, Id>, q: Query)
    requires Extends(m, n) && Covers(m, QueryMarks(q))
    ensures RenameQuery(m, q) == RenameQuery(n, q)
    decreases q
  {
    assert New(q.id) in QueryMarks(q);
    SameFilters(m, n, q.filters);
    SameChoices(m, n, q.choices);
  }

  lemma SameColumn(m: map<Id, Id>, n: map<Id, Id>, c: Column)
    requires Extends(m, n) && Covers(m, ColumnMarks(c))
    ensures RenameColumn(m, c) == RenameColumn(n, c)
  {
    assert New(c.id) in ColumnMarks(c);
    if c.subQuery {
      SameQuery(m, n, c.query);
    }
  }

  lemma {:induction false} SameColumns(m: map<Id, Id>, n: map<Id, Id>, cs: seq<Column>)
    requires Extends(m, n) && Covers(m, ColumnsMarks(cs))
    ensures RenameColumns(m, cs) == RenameColumns(n, cs)
  {
    if cs != [] {
      SameColumns(m, n, cs[..|cs| - 1]);
      SameColumn(m, n, cs[|cs| - 1]);
    }
  }

  // ---- a renaming is undone by the map back

  predicate Undoes(n: map<Id, Id>, m: map<Id, Id>, marks: seq<Mark>) {
    forall mark :: mark in marks ==> Renamed(n, Renamed(m, mark.id)) == mark.id
  }

  lemma UndoesParts(n: map<Id, Id>, m: map<Id, Id>, a: seq<Mark>, b: seq<Mark>)
    requires Undoes(n, m, a + b)
    ensures Undoes(n, m, a) && Undoes(n, m, b)
  {
    assert forall x :: x in a || x in b ==> x in a + b;
  }

  lemma {:induction false} BackSide(m: map<Id, Id>, n: map<Id, Id>, s: FilterSide)
    requires Undoes(n, m, SubQueryMarks(s)) && Undoes(n, m, FieldMarks(s))
    ensures RenameSide(n, RenameSide(m, s)) == s
    decreases s
  {
    if s.fieldId.Some? {
      assert Field(s.fieldId.value) in FieldMarks(s);
    }
    if s.isSubQuery {
      BackQuery(m, n, s.query);
    }
  }

  lemma {:induction false} BackFilter(m: map<Id, Id>, n: map<Id, Id>, f: QueryFilter)
    requires Undoes(n, m, FilterMarks(f))
    ensures RenameFilter(n, RenameFilter(m, f)) == f
    decreases f
  {
    BackSide(m, n, f.side0);
    BackSide(m, n, f.side1);
  }

  lemma RenameFiltersAppends(m: map<Id, Id>, fs: seq<QueryFilter>, f: QueryFilter)
    ensures RenameFilters(m, fs + [f]) == RenameFilters(m, fs) + [RenameFilter(m, f)]
  {
    assert (fs + [f])[..|fs|] == fs;
  }

  lemma RenameChoicesAppends(m: map<Id, Id>, cs: seq<Choice>, c: Choice)
    ensures RenameChoices(m, cs + [c]) == RenameChoices(m, cs) + [RenameChoice(m, c)]
  {
    assert (cs + [c])[..|cs|] == cs;
  }

  lemma {:induction false} BackFilters(m: map<Id, Id>, n: map<Id, Id>, fs: seq<QueryFilter>)
    requires Undoes(n, m, FiltersMarks(fs))
    ensures RenameFilters(n, RenameFilters(m, fs)) == fs
    decreases fs
  {
    if fs != [] {
      var k := |fs| - 1;
      UndoesParts(n, m, FiltersMarks(fs[..k]), FilterMarks(fs[k]));
      BackFilters(m, n, fs[..k]);
      BackFilter(m, n, fs[k]);
      RenameFiltersAppends(n, RenameFilters(m, fs[..k]), RenameFilter(m, fs[k]));
      assert fs[..k] + [fs[k]] == fs;
    }
  }

  lemma {:induction false} BackChoice(m: map<Id, Id>, n: map<Id, Id>, c: Choice)
    requires Undoes(n, m, ChoiceMarks(c))
    ensures RenameChoice(n, RenameChoice(m, c)) == c
    decreases c
  {
    assert New(c.id) in ChoiceMarks(c);
    BackFilters(m, n, c.filters);
  }

  lemma {:induction false} BackChoices(m: map<Id, Id>, n: map<Id, Id>, cs: seq<Choice>)
    requires Undoes(n, m, ChoicesMarks(cs))
    ensures RenameChoices(n, RenameChoices(m, cs)) == cs
    decreases cs
  {
    if cs != [] {
      var k := |cs| - 1;
      UndoesParts(n, m, ChoicesMarks(cs[..k]), ChoiceMarks(cs[k]));
      BackChoices(m, n, cs[..k]);
      BackChoice(m, n, cs[k]);
      RenameChoicesAppends(n, RenameChoices(m, cs[..k]), RenameChoice(m, cs[k]));
      assert cs[..k] + [cs[k]] == cs;
    }
  }

  lemma {:induction false} BackQuery(m: map<Id, Id>, n: map<Id, Id>, q: Query)
    requires Undoes(n, m, QueryMarks(q))
    ensures RenameQuery(n, RenameQuery(m, q)) == q
    decreases q
  {
    assert New(q.id) in QueryMarks(q);
    BackFilters(m, n, q.filters);
    BackChoices(m, n, q.choices);
  }

  lemma {:induction false} BackColumns(m: map<Id, Id>, n: map<Id, Id>, cs: seq<Column>)
    requires Undoes(n, m, ColumnsMarks(cs))
    ensures RenameColumns(n, RenameColumns(m, cs)) == cs
  {
    if cs != [] {
      var k := |cs| - 1;
      LastColumnUndone(n, m, cs);
      BackColumns(m, n, cs[..k]);
      BackColumn(m, n, cs[k]);
      OneMoreColumnBack(n, cs, RenameColumns(m, cs[..k]), RenameColumn(m, cs[k]));
    }
  }

  lemma LastColumnUndone(n: map<Id, Id>, m: map<Id, Id>, cs: seq<Column>)
    requires cs != [] && Undoes(n, m, ColumnsMarks(cs))
    ensures Undoes(n, m, ColumnsMarks(cs[..|cs| - 1])) && Undoes(n, m, ColumnMarks(cs[|cs| - 1]))
  {
    UndoesParts(n, m, ColumnsMarks(cs[..|cs| - 1]), ColumnMarks(cs[|cs| - 1]));
  }

  lemma OneMoreColumnBack(n: map<Id, Id>, cs: seq<Column>, copies: seq<Column>, copy: Column)
    requires cs != [] && RenameColumns(n, copies) == cs[..|cs| - 1] && RenameColumn(n, copy) == cs[|cs| - 1]
    ensures RenameColumns(n, copies + [copy]) == cs
  {
    RenameColumnsAppends(n, copies, copy);
  }

  lemma BackColumn(m: map<Id, Id>, n: map<Id, Id>, c: Column)
    requires Undoes(n, m, ColumnMarks(c))
    ensures RenameColumn(n, RenameColumn(m, c)) == c
  {
    assert New(c.id) in ColumnMarks(c);
    UndoesParts(n, m, [New(c.id)], ColumnQueryMarks(c));
    if c.subQuery {
      BackQuery(m, n, c.query);
    }
  }

  lemma RenameColumnsAppends(m: map<Id, Id>, cs: seq<Column>, c: Column)
    ensures RenameColumns(m, cs + [c]) == RenameColumns(m, cs) + [RenameColumn(m, c)]
  {
    assert (cs + [c])[..|cs|] == cs;
  }

  // ---- one part of a copy after the other

  // from p to q by these marks; renamed tells whether the part is the original, renamed by q
  ghost predicate Copied(marks: seq<Mark>, p: Progress, q: Progress, renamed: bool) {
    Process(marks, p) == Some(q) && (NewOnce(marks, p.replaced) ==> renamed)
  }

  lemma TwoParts(a: seq<Mark>, b: seq<Mark>, p: Progress, q: Progress, r: Progress)
    requires Process(a, p) == Some(q) && Process(b, q) == Some(r)
    ensures Process(a + b, p) == Some(r)
    ensures NewOnce(a + b, p.replaced) ==>
              && NewOnce(a, p.replaced) && NewOnce(b, q.replaced)
              && Covers(q.replaced, a) && Extends(q.replaced, r.replaced) && Covers(r.replaced, b)
  {
    ProcessSplits(a, b, p);
    if NewOnce(a + b, p.replaced) {
      NewOnceSplits(a, b, p);
      ProcessExtends(a, p);
      ProcessExtends(b, q);
    }
  }

  lemma FailsLater(a: seq<Mark>, b: seq<Mark>, p: Progress)
    requires Process(a, p).None? || Process(b, Process(a, p).value).None?
    ensures Process(a + b, p).None?
  {
    ProcessSplits(a, b, p);
  }

  lemma FailsInside(a: seq<Mark>, b: seq<Mark>, rest: seq<Mark>, p: Progress, q: Progress)
    requires Process(a, p) == Some(q) && Process(b, q) == None
    ensures Process((a + b) + rest, p) == None
  {
    FailsLater(a, b, p);
    FailsLater(a + b, rest, p);
  }

  lemma Regroup(a: seq<Mark>, b: seq<Mark>, c: seq<Mark>)
    ensures (a + b) + c == a + (b + c)
  {
  }

  lemma FiltersPrefix(fs: seq<QueryFilter>, i: nat) returns (rest: seq<Mark>)
    requires i <= |fs|
    ensures FiltersMarks(fs) == FiltersMarks(fs[..i]) + rest
    decreases |fs|
  {
    if i == |fs| {
      rest := [];
      assert fs[..i] == fs;
    } else {
      var n := |fs| - 1;
      rest := FiltersPrefix(fs[..n], i);
      assert fs[..n][..i] == fs[..i];
      Regroup(FiltersMarks(fs[..i]), rest, FilterMarks(fs[n]));
      rest := rest + FilterMarks(fs[n]);
    }
  }

  lemma ChoicesPrefix(cs: seq<Choice>, i: nat) returns (rest: seq<Mark>)
    requires i <= |cs|
    ensures ChoicesMarks(cs) == ChoicesMarks(cs[..i]) + rest
    decreases |cs|
  {
    if i == |cs| {
      rest := [];
      assert cs[..i] == cs;
    } else {
      var n := |cs| - 1;
      rest := ChoicesPrefix(cs[..n], i);
      assert cs[..n][..i] == cs[..i];
      Regroup(ChoicesMarks(cs[..i]), rest, ChoiceMarks(cs[n]));
      rest := rest + ChoiceMarks(cs[n]);
    }
  }

  lemma FilterFails(fs: seq<QueryFilter>, i: nat, p: Progress, q: Progress)
    requires i < |fs| && Process(FiltersMarks(fs[..i]), p) == Some(q) && Process(FilterMarks(fs[i]), q) == None
    ensures Process(FiltersMarks(fs), p) == None
  {
    var rest := FiltersPrefix(fs, i + 1);
    assert fs[..i + 1][..i] == fs[..i];
    FailsInside(FiltersMarks(fs[..i]), FilterMarks(fs[i]), rest, p, q);
  }

  lemma ChoiceFails(cs: seq<Choice>, i: nat, p: Progress, q: Progress)
    requires i < |cs| && Process(ChoicesMarks(cs[..i]), p) == Some(q) && Process(ChoiceMarks(cs[i]), q) == None
    ensures Process(ChoicesMarks(cs), p) == None
  {
    var rest := ChoicesPrefix(cs, i + 1);
    assert cs[..i + 1][..i] == cs[..i];
    FailsInside(ChoicesMarks(cs[..i]), ChoiceMarks(cs[i]), rest, p, q);
  }

  lemma OneMoreFilter(fs: seq<QueryFilter>, i: nat, done: seq<QueryFilter>, f: QueryFilter, p: Progress, q: Progress,
                      r: Progress)
    requires i < |fs| && Copied(FiltersMarks(fs[..i]), p, q, done == RenameFilters(q.replaced, fs[..i]))
    requires Copied(FilterMarks(fs[i]), q, r, f == RenameFilter(r.replaced, fs[i]))
    ensures Copied(FiltersMarks(fs[..i + 1]), p, r, done + [f] == RenameFilters(r.replaced, fs[..i + 1]))
  {
    assert fs[..i + 1][..i] == fs[..i];
    TwoParts(FiltersMarks(fs[..i]), FilterMarks(fs[i]), p, q, r);
    if NewOnce(FiltersMarks(fs[..i + 1]), p.replaced) {
      SameFilters(q.replaced, r.replaced, fs[..i]);
    }
  }

  lemma OneMoreChoice(cs: seq<Choice>, i: nat, done: seq<Choice>, c: Choice, p: Progress, q: Progress, r: Progress)
    requires i < |cs| && Copied(ChoicesMarks(cs[..i]), p, q, done == RenameChoices(q.replaced, cs[..i]))
    requires Copied(ChoiceMarks(cs[i]), q, r, c == RenameChoice(r.replaced, cs[i]))
    ensures Copied(ChoicesMarks(cs[..i + 1]), p, r, done + [c] == RenameChoices(r.replaced, cs[..i + 1]))
  {
    assert cs[..i + 1][..i] == cs[..i];
    TwoParts(ChoicesMarks(cs[..i]), ChoiceMarks(cs[i]), p, q, r);
    if NewOnce(ChoicesMarks(cs[..i + 1]), p.replaced) {
      SameChoices(q.replaced, r.replaced, cs[..i]);
    }
  }

  lemma WholeChoice(c: Choice, filters: seq<QueryFilter>, p: Progress, q: Progress, r: Progress)
    requires Process([New(c.id)], p) == Some(q)
    requires Copied(FiltersMarks(c.filters), q, r, filters == RenameFilters(r.replaced, c.filters))
    ensures Copied(ChoiceMarks(c), p, r,
            c.(id := Renamed(q.replaced, c.id), filters := filters) == RenameChoice(r.replaced, c))
  {
    TwoParts([New(c.id)], FiltersMarks(c.filters), p, q, r);
    assert New(c.id) in [New(c.id)];
  }

  lemma WholeQuery(x: Query, filters: seq<QueryFilter>, choices: seq<Choice>, p: Progress, q: Progress, r: Progress,
                   s: Progress)
    requires Process([New(x.id)], p) == Some(q)
    requires Copied(FiltersMarks(x.filters), q, r, filters == RenameFilters(r.replaced, x.filters))
    requires Copied(ChoicesMarks(x.choices), r, s, choices == RenameChoices(s.replaced, x.choices))
    ensures Copied(QueryMarks(x), p, s,
                   x.(id := Renamed(q.replaced, x.id), filters := filters, choices := choices) ==
                   RenameQuery(s.replaced, x))
  {
    TwoParts([New(x.id)], FiltersMarks(x.filters), p, q, r);
    TwoParts([New(x.id)] + FiltersMarks(x.filters), ChoicesMarks(x.choices), p, r, s);
    assert New(x.id) in [New(x.id)];
    if NewOnce(QueryMarks(x), p.replaced) {
      SameFilters(r.replaced, s.replaced, x.filters);
    }
  }

  lemma ColumnsPrefix(cs: seq<Column>, i: nat) returns (rest: seq<Mark>)
    requires i <= |cs|
    ensures ColumnsMarks(cs) == ColumnsMarks(cs[..i]) + rest
    decreases |cs|
  {
    if i == |cs| {
      rest := [];
      assert cs[..i] == cs;
    } else {
      var n := |cs| - 1;
      rest := ColumnsPrefix(cs[..n], i);
      assert cs[..n][..i] == cs[..i];
      Regroup(ColumnsMarks(cs[..i]), rest, ColumnMarks(cs[n]));
      rest := rest + ColumnMarks(cs[n]);
    }
  }

  lemma ColumnsMarksGrow(cs: seq<Column>, i: nat)
    requires i < |cs|
    ensures ColumnsMarks(cs[..i + 1]) == ColumnsMarks(cs[..i]) + ColumnMarks(cs[i])
  {
    assert cs[..i + 1][..i] == cs[..i];
  }

  lemma ColumnFails(cs: seq<Column>, i: nat, p: Progress, q: Progress)
    requires i < |cs| && Process(ColumnsMarks(cs[..i]), p) == Some(q) && Process(ColumnMarks(cs[i]), q) == None
    ensures Process(ColumnsMarks(cs), p) == None
  {
    var rest := ColumnsPrefix(cs, i + 1);
    ColumnsMarksGrow(cs, i);
    FailsInside(ColumnsMarks(cs[..i]), ColumnMarks(cs[i]), rest, p, q);
  }

  lemma OneMoreColumn(cs: seq<Column>, i: nat, done: seq<Column>, c: Column, p: Progress, q: Progress, r: Progress)
    requires i < |cs| && Copied(ColumnsMarks(cs[..i]), p, q, done == RenameColumns(q.replaced, cs[..i]))
    requires Copied(ColumnMarks(cs[i]), q, r, c == RenameColumn(r.replaced, cs[i]))
    ensures Copied(ColumnsMarks(cs[..i + 1]), p, r, done + [c] == RenameColumns(r.replaced, cs[..i + 1]))
  {
    assert cs[..i + 1][..i] == cs[..i];
    TwoParts(ColumnsMarks(cs[..i]), ColumnMarks(cs[i]), p, q, r);
    if NewOnce(ColumnsMarks(cs[..i + 1]), p.replaced) {
      SameColumns(q.replaced, r.replaced, cs[..i]);
    }
  }

  lemma WholeColumn(c: Column, query: Query, p: Progress, q: Progress, r: Progress)
    requires Process([New(c.id)], p) == Some(q)
    requires Copied(ColumnQueryMarks(c), q, r,
                    query == if c.subQuery then RenameQuery(r.replaced, c.query) else c.query)
    ensures Copied(ColumnMarks(c), p, r,
            c.(id := Renamed(q.replaced, c.id), query := query) == RenameColumn(r.replaced, c))
  {
    TwoParts([New(c.id)], ColumnQueryMarks(c), p, q, r);
    assert New(c.id) in [New(c.id)];
  }

  predicate SubQueryCopied(m: map<Id, Id>, s: FilterSide, query: Query) {
    query == if s.isSubQuery then RenameQuery(m, s.query) else s.query
  }

  lemma WholeFilter(f: QueryFilter, query0: Query, query1: Query, p: Progress, q: Progress, r: Progress)
    requires Copied(SubQueryMarks(f.side0), p, q, SubQueryCopied(q.replaced, f.side0, query0))
    requires Copied(SubQueryMarks(f.side1), q, r, SubQueryCopied(r.replaced, f.side1, query1))
    requires Process(FieldMarks(f.side0) + FieldMarks(f.side1), r) == Some(r)
    ensures Process(FilterMarks(f), p) == Some(r)
    ensures NewOnce(FilterMarks(f), p.replaced) ==>
              SubQueryCopied(r.replaced, f.side0, query0) && SubQueryCopied(r.replaced, f.side1, query1)
  {
    TwoParts(SubQueryMarks(f.side0), SubQueryMarks(f.side1), p, q, r);
    TwoParts(SubQueryMarks(f.side0) + SubQueryMarks(f.side1), FieldMarks(f.side0) + FieldMarks(f.side1), p, r, r);
    if NewOnce(FilterMarks(f), p.replaced) && f.side0.isSubQuery {
      SameQuery(q.replaced, r.replaced, f.side0.query);
    }
  }

  // ---- the program's own recursion

  class Copier {
    var idMapReplaced: map<Id, Id>
    var nextId: Id

    constructor (idMapReplaced: map<Id, Id>, nextId: Id)
      ensures Now() == Progress(idMapReplaced, nextId)
    {
      this.idMapReplaced, this.nextId := idMapReplaced, nextId;
    }

    ghost function Now(): Progress
      reads this
    {
      Progress(idMapReplaced, nextId)
    }

    method ReplaceUuid(id: Id) returns (newId: Id)
      modifies this
      ensures Process([New(id)], old(Now())) == Some(Now())
      ensures newId == Renamed(idMapReplaced, id)
    {
      newId := nextId;
      nextId := nextId + 1;
      idMapReplaced := idMapReplaced[id := newId];
      assert [New(id)][..0] == [];
    }

    method ReplaceSubQuery(s: FilterSide) returns (r: Option<Query>)
      modifies this
      ensures r.None? ==> Process(SubQueryMarks(s), old(Now())) == None
      ensures r.Some? ==> Copied(SubQueryMarks(s), old(Now()), Now(), SubQueryCopied(idMapReplaced, s, r.value))
      decreases s
    {
      if s.isSubQuery {
        r := ReplaceQueryIds(s.query);
      } else {
        r := Some(s.query);
      }
    }

    method LookUpField(s: FilterSide) returns (r: Option<Option<Id>>)
      ensures Process(FieldMarks(s), Now()) == if r.Some? then Some(Now()) else None
      ensures r.Some? ==> r.value == if s.fieldId.Some? then Some(Renamed(idMapReplaced, s.fieldId.value)) else None
    {
      if s.fieldId.None? {
        return Some(None);
      }
      assert [Field(s.fieldId.value)][..0] == [];
      if s.fieldId.value !in idMapReplaced {
        return None;
      }
      return Some(Some(idMapReplaced[s.fieldId.value]));
    }

    method ReplaceQueryFilterIds(f: QueryFilter) returns (r: Option<QueryFilter>)
      modifies this
      ensures r.None? ==> Process(FilterMarks(f), old(Now())) == None
      ensures r.Some? ==> Copied(FilterMarks(f), old(Now()), Now(), r.value == RenameFilter(idMapReplaced, f))
      decreases f
    {
      ghost var p := Now();
      ghost var subs := SubQueryMarks(f.side0) + SubQueryMarks(f.side1);
      ghost var fields := FieldMarks(f.side0) + FieldMarks(f.side1);
      var query0 := ReplaceSubQuery(f.side0);
      if query0.None? {
        FailsLater(SubQueryMarks(f.side0), SubQueryMarks(f.side1), p);
        FailsLater(subs, fields, p);
        return None;
      }
      ghost var q := Now();
      var query1 := ReplaceSubQuery(f.side1);
      if query1.None? {
        FailsLater(SubQueryMarks(f.side0), SubQueryMarks(f.side1), p);
        FailsLater(subs, fields, p);
        return None;
      }
      TwoParts(SubQueryMarks(f.side0), SubQueryMarks(f.side1), p, q, Now());
      var field0 := LookUpField(f.side0);
      if field0.None? {
        FailsLater(FieldMarks(f.side0), FieldMarks(f.side1), Now());
        FailsLater(subs, fields, p);
        return None;
      }
      var field1 := LookUpField(f.side1);
      ProcessSplits(FieldMarks(f.side0), FieldMarks(f.side1), Now());
      if field1.None? {
        FailsLater(subs, fields, p);
        return None;
      }
      WholeFilter(f, query0.value, query1.value, p, q, Now());
      r := Some(f.(side0 := f.side0.(query := query0.value, fieldId := field0.value),
                   side1 := f.side1.(query := query1.value, fieldId := field1.value)));
    }

    method ReplaceFilters(filters: seq<QueryFilter>) returns (r: Option<seq<QueryFilter>>)
      modifies this
      ensures r.None? ==> Process(FiltersMarks(filters), old(Now())) == None
      ensures r.Some? ==> Copied(FiltersMarks(filters), old(Now()), Now(),
              r.value == RenameFilters(idMapReplaced, filters))
      decreases filters
    {
      var copies := filters;
      for i := 0 to |filters|
        invariant |copies| == |filters| && copies[i..] == filters[i..]
        invariant Copied(FiltersMarks(filters[..i]), old(Now()), Now(),
                  copies[..i] == RenameFilters(idMapReplaced, filters[..i]))
      {
        ghost var q := Now();
        assert copies[i] == filters[i];
        var f := ReplaceQueryFilterIds(copies[i]);
        if f.None? {
          FilterFails(filters, i, old(Now()), q);
          return None;
        }
        OneMoreFilter(filters, i, copies[..i], f.value, old(Now()), q, Now());
        ghost var done := copies[..i];
        copies := copies[i := f.value];
        assert copies[..i + 1] == done + [f.value];
      }
      assert filters[..|filters|] == filters && copies[..|filters|] == copies;
      return Some(copies);
    }

    method ReplaceChoices(choices: seq<Choice>) returns (r: Option<seq<Choice>>)
      modifies this
      ensures r.None? ==> Process(ChoicesMarks(choices), old(Now())) == None
      ensures r.Some? ==> Copied(ChoicesMarks(choices), old(Now()), Now(),
              r.value == RenameChoices(idMapReplaced, choices))
      decreases choices
    {
      var copies := choices;
      for i := 0 to |choices|
        invariant |copies| == |choices| && copies[i..] == choices[i..]
        invariant Copied(ChoicesMarks(choices[..i]), old(Now()), Now(),
                  copies[..i] == RenameChoices(idMapReplaced, choices[..i]))
      {
        ghost var q := Now();
        assert copies[i] == choices[i];
        var c := ReplaceChoice(copies[i]);
        if c.None? {
          ChoiceFails(choices, i, old(Now()), q);
          return None;
        }
        OneMoreChoice(choices, i, copies[..i], c.value, old(Now()), q, Now());
        ghost var done := copies[..i];
        copies := copies[i := c.value];
        assert copies[..i + 1] == done + [c.value];
      }
      assert choices[..|choices|] == choices && copies[..|choices|] == copies;
      return Some(copies);
    }

    method ReplaceChoice(c: Choice) returns (r: Option<Choice>)
      modifies this
      ensures r.None? ==> Process(ChoiceMarks(c), old(Now())) == None
      ensures r.Some? ==> Copied(ChoiceMarks(c), old(Now()), Now(), r.value == RenameChoice(idMapReplaced, c))
      decreases c
    {
      var newId := ReplaceUuid(c.id);
      ghost var q := Now();
      var filters := ReplaceFilters(c.filters);
      if filters.None? {
        FailsLater([New(c.id)], FiltersMarks(c.filters), old(Now()));
        return None;
      }
      WholeChoice(c, filters.value, old(Now()), q, Now());
      return Some(c.(id := newId, filters := filters.value));
    }

    method ReplaceQueryIds(queryIn: Query) returns (r: Option<Query>)
      modifies this
      ensures r.None? ==> Process(QueryMarks(queryIn), old(Now())) == None
      ensures r.Some? ==> Copied(QueryMarks(queryIn), old(Now()), Now(), r.value == RenameQuery(idMapReplaced, queryIn))
      decreases queryIn
    {
      ghost var first := [New(queryIn.id)] + FiltersMarks(queryIn.filters);
      var newId := ReplaceUuid(queryIn.id);
      ghost var q := Now();
      var filters := ReplaceFilters(queryIn.filters);
      if filters.None? {
        FailsLater([New(queryIn.id)], FiltersMarks(queryIn.filters), old(Now()));
        FailsLater(first, ChoicesMarks(queryIn.choices), old(Now()));
        return None;
      }
      ghost var s := Now();
      ProcessSplits([New(queryIn.id)], FiltersMarks(queryIn.filters), old(Now()));
      var choices := ReplaceChoices(queryIn.choices);
      if choices.None? {
        FailsLater(first, ChoicesMarks(queryIn.choices), old(Now()));
        return None;
      }
      WholeQuery(queryIn, filters.value, choices.value, old(Now()), q, s, Now());
      return Some(queryIn.(id := newId, filters := filters.value, choices := choices.value));
    }

    method OverwriteFilters(filters: array<QueryFilter>) returns (ok: bool)
      modifies this, filters
      ensures !ok ==> Process(FiltersMarks(old(filters[..])), old(Now())) == None
      ensures ok ==> Copied(FiltersMarks(old(filters[..])), old(Now()), Now(),
              filters[..] == RenameFilters(idMapReplaced, old(filters[..])))
    {
      ghost var fs := filters[..];
      for i := 0 to filters.Length
        invariant filters[i..] == fs[i..]
        invariant Copied(FiltersMarks(fs[..i]), old(Now()), Now(),
                  filters[..i] == RenameFilters(idMapReplaced, fs[..i]))
      {
        ghost var q, done := Now(), filters[..i];
        assert filters[i] == fs[i];
        var f := ReplaceQueryFilterIds(filters[i]);
        if f.None? {
          FilterFails(fs, i, old(Now()), q);
          return false;
        }
        OneMoreFilter(fs, i, done, f.value, old(Now()), q, Now());
        filters[i] := f.value;
        assert filters[..i + 1] == done + [f.value];
      }
      assert fs[..|fs|] == fs && filters[..filters.Length] == filters[..];
      return true;
    }

    method OverwriteChoices(choices: array<Choice>) returns (ok: bool)
      modifies this, choices
      ensures !ok ==> Process(ChoicesMarks(old(choices[..])), old(Now())) == None
      ensures ok ==> Copied(ChoicesMarks(old(choices[..])), old(Now()), Now(),
              choices[..] == RenameChoices(idMapReplaced, old(choices[..])))
    {
      ghost var cs := choices[..];
      for i := 0 to choices.Length
        invariant choices[i..] == cs[i..]
        invariant Copied(ChoicesMarks(cs[..i]), old(Now()), Now(),
                  choices[..i] == RenameChoices(idMapReplaced, cs[..i]))
      {
        ghost var q, done := Now(), choices[..i];
        assert choices[i] == cs[i];
        var c := ReplaceChoice(choices[i]);
        if c.None? {
          ChoiceFails(cs, i, old(Now()), q);
          return false;
        }
        OneMoreChoice(cs, i, done, c.value, old(Now()), q, Now());
        choices[i] := c.value;
        assert choices[..i + 1] == done + [c.value];
      }
      assert cs[..|cs|] == cs && choices[..choices.Length] == choices[..];
      return true;
    }

    // The copy of a query that the caller holds is written over the original's filters and choices, so that
    // the original keeps nothing of its own but its ID.
    method CopyHeldQuery(queryIn: HeldQuery) returns (r: Option<HeldQuery>)
      modifies this, queryIn.filters, queryIn.choices
      ensures r.None? ==> Process(QueryMarks(old(ValueOf(queryIn))), old(Now())) == None
      ensures r.Some? ==> Copied(QueryMarks(old(ValueOf(queryIn))), old(Now()), Now(),
                                 ValueOf(r.value) == RenameQuery(idMapReplaced, old(ValueOf(queryIn))))
      ensures r.Some? ==> r.value.filters == queryIn.filters && r.value.choices == queryIn.choices
      ensures r.Some? ==> ValueOf(queryIn) == ValueOf(r.value).(id := queryIn.id)
    {
      ghost var x := ValueOf(queryIn);
      ghost var first := [New(x.id)] + FiltersMarks(x.filters);
      var newId := ReplaceUuid(queryIn.id);
      ghost var q := Now();
      var ok := OverwriteFilters(queryIn.filters);
      if !ok {
        FailsLater([New(x.id)], FiltersMarks(x.filters), old(Now()));
        FailsLater(first, ChoicesMarks(x.choices), old(Now()));
        return None;
      }
      ghost var s := Now();
      ProcessSplits([New(x.id)], FiltersMarks(x.filters), old(Now()));
      ok := OverwriteChoices(queryIn.choices);
      if !ok {
        FailsLater(first, ChoicesMarks(x.choices), old(Now()));
        return None;
      }
      WholeQuery(x, queryIn.filters[..], queryIn.choices[..], old(Now()), q, s, Now());
      return Some(queryIn.(id := newId));
    }

    // Columns are overwritten in place, one after the other.
    method ReplaceColumnIds(columns: array<Column>) returns (ok: bool)
      modifies this, columns
      ensures !ok ==> Process(ColumnsMarks(old(columns[..])), old(Now())) == None
      ensures ok ==> Copied(ColumnsMarks(old(columns[..])), old(Now()), Now(),
              columns[..] == RenameColumns(idMapReplaced, old(columns[..])))
    {
      ghost var cs := columns[..];
      for i := 0 to columns.Length
        invariant columns[i..] == cs[i..]
        invariant Copied(ColumnsMarks(cs[..i]), old(Now()), Now(),
                  columns[..i] == RenameColumns(idMapReplaced, cs[..i]))
      {
        ghost var q, done := Now(), columns[..i];
        assert columns[i] == cs[i];
        var c := ReplaceColumn(columns[i]);
        if c.None? {
          ColumnFails(cs, i, old(Now()), q);
          return false;
        }
        OneMoreColumn(cs, i, done, c.value, old(Now()), q, Now());
        columns[i] := c.value;
        assert columns[..i + 1] == done + [c.value];
      }
      assert cs[..|cs|] == cs && columns[..columns.Length] == columns[..];
      return true;
    }

    method ReplaceColumn(c: Column) returns (r: Option<Column>)
      modifies this
      ensures r.None? ==> Process(ColumnMarks(c), old(Now())) == None
      ensures r.Some? ==> Copied(ColumnMarks(c), old(Now()), Now(), r.value == RenameColumn(idMapReplaced, c))
    {
      var newId := ReplaceUuid(c.id);
      ghost var q := Now();
      var query := Some(c.query);
      if c.subQuery {
        query := ReplaceQueryIds(c.query);
        if query.None? {
          FailsLater([New(c.id)], ColumnQueryMarks(c), old(Now()));
          return None;
        }
      }
      WholeColumn(c, query.value, old(Now()), q, Now());
      return Some(c.(id := newId, query := query.value));
    }
  }

  // ---- what a copy is

  // a field ID is known when it is looked up: from before, or replaced earlier in this copy
  predicate FieldsKnown(marks: seq<Mark>, m: map<Id, Id>) {
    forall k :: 0 <= k < |marks| && marks[k].Field? ==> marks[k].id in m || New(marks[k].id) in marks[..k]
  }

  lemma {:induction false} ProcessedKeys(marks: seq<Mark>, p: Progress, id: Id)
    requires Process(marks, p).Some?
    ensures id in Process(marks, p).value.replaced <==> id in p.replaced || New(id) in marks
  {
    if marks != [] {
      var n := |marks| - 1;
      ProcessedKeys(marks[..n], p, id);
      assert marks == marks[..n] + [marks[n]];
    }
  }

  // A copy succeeds if and only if all its field IDs are known.
  lemma {:induction false} CopySucceedsIffFieldsKnown(marks: seq<Mark>, p: Progress)
    ensures Process(marks, p).Some? <==> FieldsKnown(marks, p.replaced)
  {
    if marks != [] {
      var n := |marks| - 1;
      CopySucceedsIffFieldsKnown(marks[..n], p);
      forall k | 0 <= k < n
        ensures marks[..n][..k] == marks[..k]
      {
      }
      if Process(marks[..n], p).Some? {
        ProcessedKeys(marks[..n], p, marks[n].id);
      }
      assert FieldsKnown(marks, p.replaced) <==>
        FieldsKnown(marks[..n], p.replaced) &&
            (marks[n].Field? ==> marks[n].id in p.replaced || New(marks[n].id) in marks[..n]);
    }
  }

  // no two IDs were replaced by the same one, and all replacements come from the generator
  predicate Injective(p: Progress) {
    && (forall a, b :: a in p.replaced && b in p.replaced && p.replaced[a] == p.replaced[b] ==> a == b)
    && (forall a :: a in p.replaced ==> p.replaced[a] < p.next)
  }

  ghost function Source(m: map<Id, Id>, v: Id): Id
    requires v in m.Values
  {
    var k :| k in m && m[k] == v;
    k
  }

  ghost function Inverse(m: map<Id, Id>): map<Id, Id> {
    map v | v in m.Values :: Source(m, v)
  }

  lemma {:induction false} ProcessStaysInjective(marks: seq<Mark>, p: Progress)
    requires Injective(p) && Process(marks, p).Some?
    ensures Injective(Process(marks, p).value)
  {
    if marks != [] {
      ProcessStaysInjective(marks[..|marks| - 1], p);
    }
  }

  lemma InverseUndoes(p: Progress, marks: seq<Mark>)
    requires Injective(p) && Covers(p.replaced, marks)
    ensures Undoes(Inverse(p.replaced), p.replaced, marks)
  {
    forall mark | mark in marks
      ensures Renamed(Inverse(p.replaced), Renamed(p.replaced, mark.id)) == mark.id
    {
      assert p.replaced[mark.id] in p.replaced.Values;
    }
  }

  lemma NewIdsAreFresh(marks: seq<Mark>, p: Progress, r: Progress)
    requires Process(marks, p) == Some(r) && NewOnce(marks, p.replaced) && Injective(p)
    ensures Extends(p.replaced, r.replaced) && Injective(r) && Undoes(Inverse(r.replaced), r.replaced, marks)
    ensures forall id :: New(id) in marks ==> id in r.replaced && p.next <= r.replaced[id] < r.next
  {
    ProcessExtends(marks, p);
    ProcessStaysInjective(marks, p);
    InverseUndoes(r, marks);
    forall id | New(id) in marks
      ensures id in r.replaced && p.next <= r.replaced[id] < r.next
    {
      assert New(id).id in r.replaced;
      var k :| 0 <= k < |marks| && marks[k] == New(id);
      assert id !in p.replaced;
    }
  }

  // ---- what a renaming does to each ID

  // b holds, in the place of every ID of a, the one that the map has for it
  ghost predicate InPlace(m: map<Id, Id>, a: seq<Mark>, b: seq<Mark>) {
    && |a| == |b|
    && forall k :: 0 <= k < |a| ==>
         && (a[k].New? <==> b[k].New?)
         && if a[k].id in m then b[k].id == m[a[k].id] else b[k].id == a[k].id
  }

  lemma InPlaceJoins(m: map<Id, Id>, a: seq<Mark>, b: seq<Mark>, c: seq<Mark>, d: seq<Mark>)
    requires InPlace(m, a, b) && InPlace(m, c, d)
    ensures InPlace(m, a + c, b + d)
  {
  }

  lemma {:induction false} SideInPlace(m: map<Id, Id>, s: FilterSide)
    ensures InPlace(m, SubQueryMarks(s), SubQueryMarks(RenameSide(m, s)))
    ensures InPlace(m, FieldMarks(s), FieldMarks(RenameSide(m, s)))
    decreases s
  {
    if s.isSubQuery {
      QueryInPlace(m, s.query);
    }
  }

  lemma {:induction false} FilterInPlace(m: map<Id, Id>, f: QueryFilter)
    ensures InPlace(m, FilterMarks(f), FilterMarks(RenameFilter(m, f)))
    decreases f
  {
    var g := RenameFilter(m, f);
    SideInPlace(m, f.side0);
    SideInPlace(m, f.side1);
    InPlaceJoins(m, SubQueryMarks(f.side0), SubQueryMarks(g.side0), SubQueryMarks(f.side1), SubQueryMarks(g.side1));
    InPlaceJoins(m, FieldMarks(f.side0), FieldMarks(g.side0), FieldMarks(f.side1), FieldMarks(g.side1));
    InPlaceJoins(m, SubQueryMarks(f.side0) + SubQueryMarks(f.side1), SubQueryMarks(g.side0) + SubQueryMarks(g.side1),
                 FieldMarks(f.side0) + FieldMarks(f.side1), FieldMarks(g.side0) + FieldMarks(g.side1));
  }

  lemma {:induction false} FiltersInPlace(m: map<Id, Id>, fs: seq<QueryFilter>)
    ensures InPlace(m, FiltersMarks(fs), FiltersMarks(RenameFilters(m, fs)))
    decreases fs
  {
    if fs != [] {
      var n := |fs| - 1;
      FiltersInPlace(m, fs[..n]);
      FilterInPlace(m, fs[n]);
      var renamed := RenameFilters(m, fs);
      assert renamed[..n] == RenameFilters(m, fs[..n]);
      InPlaceJoins(m, FiltersMarks(fs[..n]), FiltersMarks(renamed[..n]), FilterMarks(fs[n]), FilterMarks(renamed[n]));
    }
  }

  lemma {:induction false} ChoiceInPlace(m: map<Id, Id>, c: Choice)
    ensures InPlace(m, ChoiceMarks(c), ChoiceMarks(RenameChoice(m, c)))
    decreases c
  {
    FiltersInPlace(m, c.filters);
    var renamed := RenameChoice(m, c);
    InPlaceJoins(m, [New(c.id)], [New(renamed.id)], FiltersMarks(c.filters), FiltersMarks(renamed.filters));
  }

  lemma {:induction false} ChoicesInPlace(m: map<Id, Id>, cs: seq<Choice>)
    ensures InPlace(m, ChoicesMarks(cs), ChoicesMarks(RenameChoices(m, cs)))
    decreases cs
  {
    if cs != [] {
      var n := |cs| - 1;
      ChoicesInPlace(m, cs[..n]);
      ChoiceInPlace(m, cs[n]);
      var renamed := RenameChoices(m, cs);
      assert renamed[..n] == RenameChoices(m, cs[..n]);
      InPlaceJoins(m, ChoicesMarks(cs[..n]), ChoicesMarks(renamed[..n]), ChoiceMarks(cs[n]), ChoiceMarks(renamed[n]));
    }
  }

  // Every ID in a renamed query, at any depth, is what the map has for the ID in its place.
  lemma {:induction false} QueryInPlace(m: map<Id, Id>, q: Query)
    ensures InPlace(m, QueryMarks(q), QueryMarks(RenameQuery(m, q)))
    decreases q
  {
    var r := RenameQuery(m, q);
    FiltersInPlace(m, q.filters);
    ChoicesInPlace(m, q.choices);
    InPlaceJoins(m, [New(q.id)], [New(r.id)], FiltersMarks(q.filters), FiltersMarks(r.filters));
    InPlaceJoins(m, [New(q.id)] + FiltersMarks(q.filters), [New(r.id)] + FiltersMarks(r.filters),
                 ChoicesMarks(q.choices), ChoicesMarks(r.choices));
  }

  lemma {:induction false} ColumnsInPlace(m: map<Id, Id>, cs: seq<Column>)
    ensures InPlace(m, ColumnsMarks(cs), ColumnsMarks(RenameColumns(m, cs)))
  {
    if cs != [] {
      var n := |cs| - 1;
      var renamed := RenameColumns(m, cs);
      ColumnsInPlace(m, cs[..n]);
      assert renamed[..n] == RenameColumns(m, cs[..n]);
      if cs[n].subQuery {
        QueryInPlace(m, cs[n].query);
      }
      InPlaceJoins(m, [New(cs[n].id)], [New(renamed[n].id)], ColumnQueryMarks(cs[n]), ColumnQueryMarks(renamed[n]));
      InPlaceJoins(m, ColumnsMarks(cs[..n]), ColumnsMarks(renamed[..n]), ColumnMarks(cs[n]), ColumnMarks(renamed[n]));
    }
  }

  // If no ID is replaced twice, the copy of a query is the query renamed by the returned map: all its own
  // IDs are new and different, and renaming the copy backwards gives the query again.
  lemma CopyIsInvertibleRenaming(q: Query, p: Progress, r: Progress, copy: Query)
    requires Copied(QueryMarks(q), p, r, copy == RenameQuery(r.replaced, q))
    requires NewOnce(QueryMarks(q), p.replaced) && Injective(p)
    ensures copy == RenameQuery(r.replaced, q) && RenameQuery(Inverse(r.replaced), copy) == q
    ensures Extends(p.replaced, r.replaced) && Injective(r)
    ensures InPlace(r.replaced, QueryMarks(q), QueryMarks(copy)) && Covers(r.replaced, QueryMarks(q))
    ensures forall id :: New(id) in QueryMarks(q) ==> id in r.replaced && p.next <= r.replaced[id] < r.next
  {
    QueryInPlace(r.replaced, q);
    ProcessExtends(QueryMarks(q), p);
    NewIdsAreFresh(QueryMarks(q), p, r);
    BackQuery(r.replaced, Inverse(r.replaced), q);
  }

  // So it is with columns.
  lemma ColumnsCopyIsInvertibleRenaming(cs: seq<Column>, p: Progress, r: Progress, copies: seq<Column>)
    requires Copied(ColumnsMarks(cs), p, r, copies == RenameColumns(r.replaced, cs))
    requires NewOnce(ColumnsMarks(cs), p.replaced) && Injective(p)
    ensures copies == RenameColumns(r.replaced, cs) && RenameColumns(Inverse(r.replaced), copies) == cs
    ensures InPlace(r.replaced, ColumnsMarks(cs), ColumnsMarks(copies)) && Covers(r.replaced, ColumnsMarks(cs))
    ensures forall id :: New(id) in ColumnsMarks(cs) ==> id in r.replaced && p.next <= r.replaced[id] < r.next
  {
    ColumnsInPlace(r.replaced, cs);
    ProcessExtends(ColumnsMarks(cs), p);
    NewIdsAreFresh(ColumnsMarks(cs), p, r);
    BackColumns(r.replaced, Inverse(r.replaced), cs);
  }
}
