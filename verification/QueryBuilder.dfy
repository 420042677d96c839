/** The query builder's WHERE parts: named placeholders in braces are replaced one by one, and their
    values are collected in the order of replacement (tools/queryBuilder.go). */
module QueryBuilder {
  import opened Wrappers
  import opened DataRequest

  // ---- the pattern: an opening brace, anything but a line break, and the next closing brace

  predicate IsStop(c: char) {
    c == '}' || c == '\n'
  }

  // the next closing brace or line break, or the end of s
  function Stop(s: string, j: nat): (r: nat)
    requires j <= |s|
    ensures j <= r <= |s|
    decreases |s| - j
  {
    if j == |s| || IsStop(s[j]) then j else Stop(s, j + 1)
  }

  predicate MatchAt(s: string, j: nat) {
    j < |s| && s[j] == '{' && Stop(s, j + 1) < |s| && s[Stop(s, j + 1)] == '}'
  }

  // the leftmost match from j on, or the end of s
  function FirstMatch(s: string, j: nat): (r: nat)
    requires j <= |s|
    ensures j <= r <= |s|
    decreases |s| - j
  {
    if j == |s| || MatchAt(s, j) then j else FirstMatch(s, j + 1)
  }

  predicate HasMatch(s: string) {
    FirstMatch(s, 0) < |s|
  }

  lemma {:induction false} StopIsNext(s: string, j: nat)
    requires j <= |s|
    ensures Stop(s, j) < |s| ==> IsStop(s[Stop(s, j)])
    ensures forall k :: j <= k < Stop(s, j) ==> !IsStop(s[k])
    decreases |s| - j
  {
    if j < |s| && !IsStop(s[j]) {
      StopIsNext(s, j + 1);
    }
  }

  lemma StopIs(s: string, j: nat, r: nat)
    requires j <= r < |s| && IsStop(s[r])
    requires forall k :: j <= k < r ==> !IsStop(s[k])
    ensures Stop(s, j) == r
    decreases |s| - j
  {
  }

  lemma {:induction false} FirstMatchIsNext(s: string, j: nat)
    requires j <= |s|
    ensures FirstMatch(s, j) < |s| ==> MatchAt(s, FirstMatch(s, j))
    ensures forall k :: j <= k < FirstMatch(s, j) ==> !MatchAt(s, k)
    decreases |s| - j
  {
    if j < |s| && !MatchAt(s, j) {
      FirstMatchIsNext(s, j + 1);
    }
  }

  // the first match, the text before it and the text behind it
  function Before(s: string): string {
    s[..FirstMatch(s, 0)]
  }

  function NameEnd(s: string): (r: nat)
    requires HasMatch(s)
    ensures FirstMatch(s, 0) + 2 <= r <= |s|
  {
    FirstMatchIsNext(s, 0);
    Stop(s, FirstMatch(s, 0) + 1) + 1
  }

  function Name(s: string): (r: string)
    requires HasMatch(s)
    ensures |r| >= 2
  {
    s[FirstMatch(s, 0)..NameEnd(s)]
  }

  function Rest(s: string): (r: string)
    requires HasMatch(s)
    ensures |r| < |s|
  {
    s[NameEnd(s)..]
  }

  function Names(s: string): seq<string>
    decreases |s|
  {
    if HasMatch(s) then [Name(s)] + Names(Rest(s)) else []
  }

  // ---- one left-to-right substitution of all matches

  function Decimal(n: nat): string {
    if n < 10 then [['0', '1', '2', '3', '4', '5', '6', '7', '8', '9'][n]] else Decimal(n / 10) + Decimal(n % 10)
  }

  function ReadDecimal(s: string): int {
    if s == [] then 0 else ReadDecimal(s[..|s| - 1]) * 10 + (s[|s| - 1] as int - '0' as int)
  }

  // the digits of a number are read as the number again, so different numbers get different placeholders
  lemma {:induction false} DecimalReadsBack(n: nat)
    ensures ReadDecimal(Decimal(n)) == n
    decreases n
  {
    if n < 10 {
      assert Decimal(n)[..0] == [];
    } else {
      DecimalReadsBack(n / 10);
      DecimalReadsBack(n % 10);
      var d := Decimal(n % 10);
      assert d[..0] == [];
      assert Decimal(n)[..|Decimal(n)| - 1] == Decimal(n / 10);
    }
  }

  function Placeholder(dollarSigns: bool, number: nat): string {
    if dollarSigns then "$" + Decimal(number) else "?"
  }

  function Substituted(s: string, dollarSigns: bool, number: nat): string
    decreases |s|
  {
    if HasMatch(s) then
      Before(s) + Placeholder(dollarSigns, number) + Substituted(Rest(s), dollarSigns, number + 1)
    else s
  }

  // the text between the matches
  function Literals(s: string): (r: seq<string>)
    ensures |r| == |Names(s)| + 1
    decreases |s|
  {
    if HasMatch(s) then [Before(s)] + Literals(Rest(s)) else [s]
  }

  function Weave(literals: seq<string>, fills: seq<string>): string
    requires |literals| == |fills| + 1
  {
    if fills == [] then literals[0] else literals[0] + fills[0] + Weave(literals[1..], fills[1..])
  }

  // n texts for the numbers from a first one on
  function Marks(mark: nat -> string, number: nat, n: nat): (r: seq<string>)
    ensures |r| == n
    decreases n
  {
    if n == 0 then [] else [mark(number)] + Marks(mark, number + 1, n - 1)
  }

  lemma {:induction false} MarkAt(mark: nat -> string, number: nat, n: nat, k: nat)
    requires k < n
    ensures Marks(mark, number, n)[k] == mark(number + k)
    decreases n
  {
    if k > 0 {
      MarkAt(mark, number + 1, n - 1, k - 1);
    }
  }

  function Placeholders(dollarSigns: bool, number: nat, n: nat): (r: seq<string>)
    ensures |r| == n
  {
    Marks((i: nat) => Placeholder(dollarSigns, i), number, n)
  }

  // Placeholder k is a dollar sign and the decimal digits of the k-th number, or a question mark.
  lemma PlaceholderIsNumbered(dollarSigns: bool, number: nat, n: nat, k: nat)
    requires k < n
    ensures var mark := Placeholders(dollarSigns, number, n)[k];
            if dollarSigns then mark != [] && mark[0] == '$' && ReadDecimal(mark[1..]) == number + k else mark == "?"
  {
    MarkAt((i: nat) => Placeholder(dollarSigns, i), number, n, k);
    DecimalReadsBack(number + k);
    assert ("$" + Decimal(number + k))[1..] == Decimal(number + k);
  }

  lemma WeaveFirst(literal: string, literals: seq<string>, fill: string, fills: seq<string>)
    requires |literals| == |fills| + 1
    ensures Weave([literal] + literals, [fill] + fills) == literal + fill + Weave(literals, fills)
  {
    assert ([literal] + literals)[1..] == literals && ([fill] + fills)[1..] == fills;
  }

  lemma Pieces(s: string)
    requires HasMatch(s)
    ensures s == Before(s) + Name(s) + Rest(s)
  {
  }

  // The text is its literals with the names in between, and the substitution changes the names alone.
  lemma {:induction false} SubstitutionKeepsLiterals(s: string, dollarSigns: bool, number: nat)
    ensures Weave(Literals(s), Names(s)) == s
    ensures Substituted(s, dollarSigns, number) == Weave(Literals(s), Placeholders(dollarSigns, number, |Names(s)|))
    decreases |s|
  {
    if HasMatch(s) {
      var rest := Rest(s);
      SubstitutionKeepsLiterals(rest, dollarSigns, number + 1);
      Pieces(s);
      WeaveFirst(Before(s), Literals(rest), Name(s), Names(rest));
      WeaveFirst(Before(s), Literals(rest), Placeholder(dollarSigns, number),
          Placeholders(dollarSigns, number + 1, |Names(rest)|));
    }
  }

  // ---- replacing the first occurrence

  predicate OccursAt(s: string, t: string, i: nat) {
    i + |t| <= |s| && s[i..i + |t|] == t
  }

  function FirstOccurrence(s: string, t: string, i: nat): (r: nat)
    requires i <= |s|
    ensures i <= r <= |s|
    ensures r < |s| ==> OccursAt(s, t, r)
    decreases |s| - i
  {
    if i == |s| || OccursAt(s, t, i) then i else FirstOccurrence(s, t, i + 1)
  }

  lemma FirstOccurrenceIs(s: string, t: string, i: nat, r: nat)
    requires i <= r < |s| && OccursAt(s, t, r)
    requires forall k :: i <= k < r ==> !OccursAt(s, t, k)
    ensures FirstOccurrence(s, t, i) == r
    decreases |s| - i
  {
  }

  // strings.Replace(s, t, mark, 1), for a text t that is not empty
  function ReplaceFirst(s: string, t: string, mark: string): string
    requires t != []
  {
    var i := FirstOccurrence(s, t, 0);
    if i == |s| then s else s[..i] + mark + s[i + |t|..]
  }

  // a name is an opening brace, no line break, and the first closing brace
  lemma NameIs(s: string)
    requires HasMatch(s)
    ensures var t := Name(s);
            t[0] == '{' && t[|t| - 1] == '}' && forall k :: 1 <= k < |t| - 1 ==> !IsStop(t[k])
  {
    FirstMatchIsNext(s, 0);
    StopIsNext(s, FirstMatch(s, 0) + 1);
  }

  // what opens before the first match is not closed on its line
  lemma OpensWithoutEnd(s: string, i: nat)
    requires i < FirstMatch(s, 0) && s[i] == '{'
    ensures i < Stop(s, i + 1) <= |s|
    ensures Stop(s, i + 1) < |s| ==> s[Stop(s, i + 1)] == '\n'
    ensures forall k :: i + 1 <= k < Stop(s, i + 1) ==> !IsStop(s[k])
    ensures HasMatch(s) ==> Stop(s, i + 1) < FirstMatch(s, 0)
  {
    FirstMatchIsNext(s, 0);
    StopIsNext(s, i + 1);
    assert !MatchAt(s, i);
    if HasMatch(s) {
      var a := FirstMatch(s, 0);
      StopIsNext(s, a + 1);
      var e := Stop(s, a + 1);
      assert IsStop(s[e]) && i + 1 <= e;
    }
  }

  lemma DiffersAt(s: string, t: string, i: nat, k: nat)
    requires k < |t| && (i + |t| <= |s| ==> s[i + k] != t[k])
    ensures !OccursAt(s, t, i)
  {
    if i + |t| <= |s| {
      assert s[i..i + |t|][k] == s[i + k];
    }
  }

  // so the name of the first match does not occur earlier
  lemma NotBefore(s: string, i: nat)
    requires HasMatch(s) && i < FirstMatch(s, 0)
    ensures !OccursAt(s, Name(s), i)
  {
    var t := Name(s);
    NameIs(s);
    if s[i] == '{' {
      OpensWithoutEnd(s, i);
      var stop := Stop(s, i + 1);
      if stop < i + |t| {
        DiffersAt(s, t, i, stop - i);
      } else {
        DiffersAt(s, t, i, |t| - 1);
      }
    } else {
      DiffersAt(s, t, i, 0);
    }
  }

  lemma ReplaceHitsMatch(s: string, mark: string)
    requires HasMatch(s)
    ensures ReplaceFirst(s, Name(s), mark) == Before(s) + mark + Rest(s)
  {
    var a := FirstMatch(s, 0);
    forall i | 0 <= i < a
      ensures !OccursAt(s, Name(s), i)
    {
      NotBefore(s, i);
    }
    FirstOccurrenceIs(s, Name(s), 0, a);
  }

  // The text behind some prefix has the matches that it has alone.
  lemma {:induction false} StopBehind(p: string, s: string, j: nat)
    requires j <= |s|
    ensures Stop(p + s, |p| + j) == |p| + Stop(s, j)
    decreases |s| - j
  {
    if j < |s| {
      assert (p + s)[|p| + j] == s[j];
      StopBehind(p, s, j + 1);
    }
  }

  lemma MatchBehind(p: string, s: string, j: nat)
    requires j <= |s|
    ensures MatchAt(p + s, |p| + j) <==> MatchAt(s, j)
  {
    if j < |s| {
      StopBehind(p, s, j + 1);
    }
  }

  lemma {:induction false} FirstMatchBehind(p: string, s: string, j: nat)
    requires j <= |s|
    ensures FirstMatch(p + s, |p| + j) == |p| + FirstMatch(s, j)
    decreases |s| - j
  {
    MatchBehind(p, s, j);
    if j < |s| {
      FirstMatchBehind(p, s, j + 1);
    }
  }

  lemma {:induction false} FirstMatchSkips(s: string, j: nat, n: nat)
    requires j <= n <= |s| && forall k :: j <= k < n ==> !MatchAt(s, k)
    ensures FirstMatch(s, j) == FirstMatch(s, n)
    decreases n - j
  {
    if j < n {
      FirstMatchSkips(s, j + 1, n);
    }
  }

  predicate Plain(mark: string) {
    forall c :: c in mark ==> c != '{' && !IsStop(c)
  }

  lemma {:induction false} DecimalIsPlain(n: nat)
    ensures Plain(Decimal(n))
  {
    if n >= 10 {
      DecimalIsPlain(n / 10);
      DecimalIsPlain(n % 10);
    }
  }

  lemma PlaceholderIsPlain(dollarSigns: bool, number: nat)
    ensures Plain(Placeholder(dollarSigns, number))
  {
    DecimalIsPlain(number);
  }

  // Nor does a placeholder in the place of the first match close anything that opens before it.
  lemma NoMatchBefore(s: string, mark: string, i: nat)
    requires HasMatch(s) && Plain(mark) && i < |Before(s) + mark|
    ensures !MatchAt(Before(s) + mark + Rest(s), i)
  {
    var t := Before(s) + mark + Rest(s);
    if i < |Before(s)| {
      if s[i] == '{' {
        OpensWithoutEnd(s, i);
        StopIs(t, i + 1, Stop(s, i + 1));
      }
    } else {
      assert t[i] == mark[i - |Before(s)|] && t[i] in mark;
    }
  }

  // The next match of the new text is the next match of the old one.
  lemma NextMatchBehind(s: string, mark: string)
    requires HasMatch(s) && Plain(mark)
    ensures FirstMatch(Before(s) + mark + Rest(s), 0) == |Before(s) + mark| + FirstMatch(Rest(s), 0)
  {
    var p, rest := Before(s) + mark, Rest(s);
    forall i | 0 <= i < |p|
      ensures !MatchAt(p + rest, i)
    {
      NoMatchBefore(s, mark, i);
    }
    FirstMatchSkips(p + rest, 0, |p|);
    FirstMatchBehind(p, rest, 0);
  }

  lemma PiecesBehind(p: string, s: string)
    requires FirstMatch(p + s, 0) == |p| + FirstMatch(s, 0)
    ensures HasMatch(p + s) <==> HasMatch(s)
    ensures HasMatch(s) ==> Name(p + s) == Name(s) && Rest(p + s) == Rest(s) && Before(p + s) == p + Before(s)
  {
    if HasMatch(s) {
      StopBehind(p, s, FirstMatch(s, 0) + 1);
    }
  }

  lemma Regroup(p: string, q: string, r: string, s: string)
    ensures (p + q) + r + s == p + (q + r + s)
  {
  }

  // One replacement takes one name off and leaves the result of the substitution the same.
  lemma ReplacementIsOneStep(s: string, dollarSigns: bool, number: nat)
    requires HasMatch(s)
    ensures var t := ReplaceFirst(s, Name(s), Placeholder(dollarSigns, number));
            Names(t) == Names(Rest(s)) && Substituted(t, dollarSigns, number + 1) == Substituted(s, dollarSigns, number)
  {
    var mark := Placeholder(dollarSigns, number);
    PlaceholderIsPlain(dollarSigns, number);
    ReplaceHitsMatch(s, mark);
    NextMatchBehind(s, mark);
    var rest := Rest(s);
    PiecesBehind(Before(s) + mark, rest);
    if HasMatch(rest) {
      Regroup(Before(s) + mark, Before(rest), Placeholder(dollarSigns, number + 1),
          Substituted(Rest(rest), dollarSigns, number + 2));
    }
  }

  // ---- all WHERE parts

  function AllNames(parts: seq<string>): seq<string> {
    if parts == [] then [] else AllNames(parts[..|parts| - 1]) + Names(parts[|parts| - 1])
  }

  // the number of the next placeholder after n more; without dollar signs they are not counted
  function Next(dollarSigns: bool, number: nat, n: nat): nat {
    if dollarSigns then number + n else number
  }

  function Line(part: string, first: bool, dollarSigns: bool, number: nat): string {
    (if first then "WHERE " else "AND ") + Substituted(part, dollarSigns, number) + "\n"
  }

  // the lines of the WHERE clause, with the placeholders numbered through
  function Lines(parts: seq<string>, dollarSigns: bool, number: nat): (r: seq<string>)
    ensures |r| == |parts|
  {
    if parts == [] then []
    else
      var n := |parts| - 1;
      Lines(parts[..n], dollarSigns, number) +
      [Line(parts[n], n == 0, dollarSigns, Next(dollarSigns, number, |AllNames(parts[..n])|))]
  }

  predicate Registered(names: seq<string>, paras: map<string, Value>) {
    forall n :: n in names ==> n in paras
  }

  function ValueOf(name: string, paras: map<string, Value>): Value {
    if name in paras then paras[name] else Nil
  }

  function ValuesFor(names: seq<string>, paras: map<string, Value>): seq<Value> {
    if names == [] then [] else ValuesFor(names[..|names| - 1], paras) + [ValueOf(names[|names| - 1], paras)]
  }

  lemma {:induction false} ValuesForBoth(m: seq<string>, n: seq<string>, paras: map<string, Value>)
    ensures ValuesFor(m + n, paras) == ValuesFor(m, paras) + ValuesFor(n, paras)
    decreases n
  {
    if n == [] {
      assert m + n == m;
    } else {
      var k := |n| - 1;
      assert (m + n)[..|m| + k] == m + n[..k];
      ValuesForBoth(m, n[..k], paras);
    }
  }

  lemma OneMorePart(parts: seq<string>, i: nat, dollarSigns: bool, number: nat)
    requires i < |parts|
    ensures AllNames(parts[..i + 1]) == AllNames(parts[..i]) + Names(parts[i])
    ensures Lines(parts[..i + 1], dollarSigns, number) ==
            Lines(parts[..i], dollarSigns, number) +
            [Line(parts[i], i == 0, dollarSigns, Next(dollarSigns, number, |AllNames(parts[..i])|))]
  {
    assert parts[..i + 1][..i] == parts[..i];
  }

  lemma PartRegistered(parts: seq<string>, i: nat, paras: map<string, Value>)
    requires i < |parts|
    ensures ValuesFor(AllNames(parts[..i + 1]), paras) ==
            ValuesFor(AllNames(parts[..i]), paras) + ValuesFor(Names(parts[i]), paras)
    ensures Registered(AllNames(parts[..i + 1]), paras) <==>
            Registered(AllNames(parts[..i]), paras) && Registered(Names(parts[i]), paras)
  {
    OneMorePart(parts, i, false, 0);
    ValuesForBoth(AllNames(parts[..i]), Names(parts[i]), paras);
  }

  // what is left to do after one replacement
  lemma OneReplaced(where: string, names: seq<string>, i: nat, dollarSigns: bool, number: nat)
    requires i < |names| && Names(where) == names[i..]
    ensures names[i] != []
    ensures var t := ReplaceFirst(where, names[i], Placeholder(dollarSigns, number));
            Names(t) == names[i + 1..] &&
                Substituted(t, dollarSigns, number + 1) == Substituted(where, dollarSigns, number)
  {
    assert names[i..][0] == names[i] && names[i..][1..] == names[i + 1..];
    assert Names(where)[0] == Name(where) && Names(where)[1..] == Names(Rest(where));
    ReplacementIsOneStep(where, dollarSigns, number);
  }

  method ReplaceName(where: string, names: seq<string>, i: nat, dollarSigns: bool, dollarSignCount: nat,
                     ghost number: nat)
    returns (r: string, next: nat)
    requires i < |names| && Names(where) == names[i..] && (dollarSigns ==> dollarSignCount == number)
    ensures Names(r) == names[i + 1..]
    ensures Substituted(r, dollarSigns, number + 1) == Substituted(where, dollarSigns, number)
    ensures next == Next(dollarSigns, dollarSignCount, 1)
  {
    OneReplaced(where, names, i, dollarSigns, number);
    if !dollarSigns {
      return ReplaceFirst(where, names[i], "?"), dollarSignCount;
    }
    return ReplaceFirst(where, names[i], "$" + Decimal(dollarSignCount)), dollarSignCount + 1;
  }

  // all names of one part, replaced one after the other, with the values in the order of replacement and
  // the number that comes next; or the first name without a value
  method ReplaceNames(part: string, paras: map<string, Value>, dollarSigns: bool, number: nat)
    returns (r: Result<string, string>, ordered: seq<Value>, next: nat)
    ensures r.Success? ==> Registered(Names(part), paras) && r.value == Substituted(part, dollarSigns, number)
    ensures r.Success? ==> ordered == ValuesFor(Names(part), paras) && next == Next(dollarSigns, number, |Names(part)|)
    ensures r.Failure? ==> r.error in Names(part) && r.error !in paras
  {
    var where := part;
    var matches := Names(part);
    ordered, next := [], number;
    ghost var count, result := number, Substituted(part, dollarSigns, number);
    for i := 0 to |matches|
      invariant count == number + i && next == Next(dollarSigns, number, i)
      invariant Names(where) == matches[i..] && Substituted(where, dollarSigns, count) == result
      invariant Registered(matches[..i], paras)
      invariant ordered == ValuesFor(matches[..i], paras)
    {
      if matches[i] !in paras {
        return Failure(matches[i]), ordered, next;
      }
      where, next := ReplaceName(where, matches, i, dollarSigns, next, count);
      count := count + 1;
      ordered := ordered + [paras[matches[i]]];
      OneMoreValue(matches, i, paras);
      assert matches[..i + 1] == matches[..i] + [matches[i]];
    }
    assert matches[..|matches|] == matches;
    return Success(where), ordered, next;
  }

  // the lines of all parts, with the values and the number that comes next
  method WhereLines(parts: seq<string>, paras: map<string, Value>, dollarSigns: bool, number: nat)
    returns (r: Result<seq<string>, string>, ordered: seq<Value>, next: nat)
    ensures r.Success? <==> Registered(AllNames(parts), paras)
    ensures r.Success? ==> r.value == Lines(parts, dollarSigns, number) && ordered == ValuesFor(AllNames(parts), paras)
    ensures r.Success? ==> next == Next(dollarSigns, number, |AllNames(parts)|)
    ensures r.Failure? ==> r.error in AllNames(parts) && r.error !in paras
  {
    var lines: seq<string> := [];
    ordered, next := [], number;
    for i := 0 to |parts|
      invariant Registered(AllNames(parts[..i]), paras)
      invariant ordered == ValuesFor(AllNames(parts[..i]), paras)
      invariant next == Next(dollarSigns, number, |AllNames(parts[..i])|)
      invariant lines == Lines(parts[..i], dollarSigns, number)
    {
      OneMorePart(parts, i, dollarSigns, number);
      PartRegistered(parts, i, paras);
      var where, values, numberNext := ReplaceNames(parts[i], paras, dollarSigns, next);
      if where.Failure? {
        NamesOfPart(parts, i);
        return Failure(where.error), ordered, next;
      }
      ordered, next := ordered + values, numberNext;
      lines := lines + [(if i == 0 then "WHERE " else "AND ") + where.value + "\n"];
    }
    assert parts[..|parts|] == parts;
    return Success(lines), ordered, next;
  }

  class Builder {
    var cWhere: seq<string>
    var cParas: map<string, Value>
    var cParasOrdered: seq<Value>
    var dollarSigns: bool
    var dollarSignCount: nat

    constructor ()
      ensures cWhere == [] && cParas == map[] && cParasOrdered == [] && !dollarSigns && dollarSignCount == 0
    {
      cWhere, cParas, cParasOrdered := [], map[], [];
      dollarSigns, dollarSignCount := false, 0;
    }

    method AddWhere(value: string)
      modifies this`cWhere
      ensures cWhere == old(cWhere) + [value]
    {
      cWhere := cWhere + [value];
    }

    method AddPara(name: string, value: Value)
      modifies this`cParas
      ensures cParas == old(cParas)[name := value]
    {
      cParas := cParas[name := value];
    }

    method UseDollarSigns()
      modifies this`dollarSigns, this`dollarSignCount
      ensures dollarSigns && dollarSignCount == 1
    {
      dollarSigns, dollarSignCount := true, 1;
    }

    // The WHERE clause of the query, or the first name for which no value was registered.
    method GetQuery() returns (r: Result<seq<string>, string>)
      modifies this`cParasOrdered, this`dollarSignCount
      ensures r.Success? <==> Registered(AllNames(cWhere), cParas)
      ensures r.Success? ==>
                && r.value == Lines(cWhere, dollarSigns, old(dollarSignCount))
                && cParasOrdered == ValuesFor(AllNames(cWhere), cParas)
                && dollarSignCount == Next(dollarSigns, old(dollarSignCount), |AllNames(cWhere)|)
      ensures r.Failure? ==> r.error in AllNames(cWhere) && r.error !in cParas
    {
      r, cParasOrdered, dollarSignCount := WhereLines(cWhere, cParas, dollarSigns, dollarSignCount);
    }
  }

  lemma OneMoreValue(names: seq<string>, i: nat, paras: map<string, Value>)
    requires i < |names|
    ensures ValuesFor(names[..i + 1], paras) == ValuesFor(names[..i], paras) + [ValueOf(names[i], paras)]
  {
    assert names[..i + 1][..i] == names[..i];
  }

  // the k-th value is the one registered for the k-th name
  lemma {:induction false} ValuesMatchNames(names: seq<string>, paras: map<string, Value>, k: nat)
    requires Registered(names, paras) && k < |names|
    ensures |ValuesFor(names, paras)| == |names| && ValuesFor(names, paras)[k] == paras[names[k]]
    decreases |names|
  {
    var n := |names| - 1;
    assert names[n] in names && forall x :: x in names[..n] ==> x in names;
    ValuesCount(names[..n], paras);
    if k < n {
      ValuesMatchNames(names[..n], paras, k);
    }
  }

  lemma {:induction false} ValuesCount(names: seq<string>, paras: map<string, Value>)
    ensures |ValuesFor(names, paras)| == |names|
  {
    if names != [] {
      ValuesCount(names[..|names| - 1], paras);
    }
  }

  lemma {:induction false} NamesOfPart(parts: seq<string>, i: nat)
    requires i < |parts|
    ensures forall n :: n in Names(parts[i]) ==> n in AllNames(parts)
    decreases |parts|
  {
    if i < |parts| - 1 {
      NamesOfPart(parts[..|parts| - 1], i);
    }
  }

  lemma {:induction false} EarlierParts(parts: seq<string>, p: nat, dollarSigns: bool, number: nat)
    requires p <= |parts|
    ensures AllNames(parts[..p]) <= AllNames(parts)
    ensures Lines(parts[..p], dollarSigns, number) <= Lines(parts, dollarSigns, number)
    decreases |parts|
  {
    if p < |parts| {
      var n := |parts| - 1;
      assert parts[..n][..p] == parts[..p];
      EarlierParts(parts[..n], p, dollarSigns, number);
    } else {
      assert parts[..p] == parts;
    }
  }

  // The line of a part keeps all its text but the names; its placeholders are numbered on from those of the
  // parts before.
  lemma LineOfPart(parts: seq<string>, number: nat, p: nat)
    requires p < |parts|
    ensures parts[p] == Weave(Literals(parts[p]), Names(parts[p]))
    ensures Lines(parts, true, number)[p] ==
            (if p == 0 then "WHERE " else "AND ") +
            Weave(Literals(parts[p]), Placeholders(true, number + |AllNames(parts[..p])|, |Names(parts[p])|)) + "\n"
  {
    LineAt(parts, number, p);
    SubstitutionKeepsLiterals(parts[p], true, number + |AllNames(parts[..p])|);
  }

  lemma LineAt(parts: seq<string>, number: nat, p: nat)
    requires p < |parts|
    ensures Lines(parts, true, number)[p] == Line(parts[p], p == 0, true, number + |AllNames(parts[..p])|)
  {
    OneMorePart(parts, p, true, number);
    EarlierParts(parts, p + 1, true, number);
    assert Lines(parts[..p + 1], true, number)[p] == Lines(parts, true, number)[p];
  }

  // Placeholder k of part p is numbered by its place among the placeholders of all parts, however a number
  // is written, and the value at that place is the one registered for its name, also if a name repeats. So
  // after UseDollarSigns, $1 stands for the first value, and so on.
  lemma PlaceholdersNumberTheValues(
      parts: seq<string>, paras: map<string, Value>, mark: nat -> string, number: nat, p: nat, k: nat)
    requires p < |parts| && k < |Names(parts[p])| && Registered(AllNames(parts), paras)
    ensures var place := |AllNames(parts[..p])| + k;
            && Marks(mark, number + |AllNames(parts[..p])|, |Names(parts[p])|)[k] == mark(number + place)
            && place < |ValuesFor(AllNames(parts), paras)|
            && Names(parts[p])[k] in paras && ValuesFor(AllNames(parts), paras)[place] == paras[Names(parts[p])[k]]
  {
    var before := AllNames(parts[..p]);
    MarkAt(mark, number + |before|, |Names(parts[p])|, k);
    NameAt(parts, p, k);
    ValuesMatchNames(AllNames(parts), paras, |before| + k);
    assert AllNames(parts)[|before| + k] in AllNames(parts);
  }

  lemma NameAt(parts: seq<string>, p: nat, k: nat)
    requires p < |parts| && k < |Names(parts[p])|
    ensures |AllNames(parts[..p])| + k < |AllNames(parts)|
    ensures AllNames(parts)[|AllNames(parts[..p])| + k] == Names(parts[p])[k]
  {
    OneMorePart(parts, p, true, 0);
    EarlierParts(parts, p + 1, true, 0);
    var some := AllNames(parts[..p]) + Names(parts[p]);
    assert some <= AllNames(parts) && some[|AllNames(parts[..p])| + k] == Names(parts[p])[k];
  }
}
