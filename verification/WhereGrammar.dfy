/** How a database reads a WHERE clause: brackets first, then AND, then OR, in three-valued logic.
    And which token sequences it can read at all. */
module WhereGrammar {
  import opened Wrappers
  import opened SqlTree

  datatype Tri = True | False | Unknown

  function And3(a: Tri, b: Tri): Tri {
    if a.False? || b.False? then False else if a.Unknown? || b.Unknown? then Unknown else True
  }

  function Or3(a: Tri, b: Tri): Tri {
    if a.True? || b.True? then True else if a.Unknown? || b.Unknown? then Unknown else False
  }

  datatype Tree = Atom(token: Token) | Both(left: Tree, right: Tree) | Either(left: Tree, right: Tree)

  ghost function Eval(t: Tree, v: Token -> Tri): Tri {
    match t
    case Atom(token) => v(token)
    case Both(l, r) => And3(Eval(l, v), Eval(r, v))
    case Either(l, r) => Or3(Eval(l, v), Eval(r, v))
  }

  type Parsed = Option<(Tree, seq<Token>)>

  predicate IsAtom(t: Token) {
    t.Compare? || t.Policy?
  }

  function ParseOr(ts: seq<Token>): (r: Parsed)
    ensures r.Some? ==> |r.value.1| < |ts|
    decreases |ts|, 2
  {
    match ParseAnd(ts)
    case None => None
    case Some((t, rest)) =>
      if rest == [] || !rest[0].Or? then Some((t, rest))
      else
        match ParseOr(rest[1..])
        case None => None
        case Some((u, rest')) => Some((Either(t, u), rest'))
  }

  function ParseAnd(ts: seq<Token>): (r: Parsed)
    ensures r.Some? ==> |r.value.1| < |ts|
    decreases |ts|, 1
  {
    match ParseOperand(ts)
    case None => None
    case Some((t, rest)) =>
      if rest == [] || !rest[0].And? then Some((t, rest))
      else
        match ParseAnd(rest[1..])
        case None => None
        case Some((u, rest')) => Some((Both(t, u), rest'))
  }

  function ParseOperand(ts: seq<Token>): (r: Parsed)
    ensures r.Some? ==> |r.value.1| < |ts|
    decreases |ts|, 0
  {
    if ts == [] then None
    else if IsAtom(ts[0]) then Some((Atom(ts[0]), ts[1..]))
    else if !ts[0].Open? then None
    else
      match ParseOr(ts[1..])
      case None => None
      case Some((t, rest)) => if rest == [] || !rest[0].Close? then None else Some((t, rest[1..]))
  }

  // what a whole clause means, if it can be read
  ghost function Meaning(ts: seq<Token>, v: Token -> Tri): Option<Tri> {
    match ParseOr(ts)
    case None => None
    case Some((t, rest)) => if rest == [] then Some(Eval(t, v)) else None
  }

  // ---- readable sequences, checked from left to right with a bracket counter

  predicate Scan(ts: seq<Token>, operandNext: bool, depth: nat) {
    if ts == [] then !operandNext && depth == 0
    else if operandNext then
      if ts[0].Open? then Scan(ts[1..], true, depth + 1) else IsAtom(ts[0]) && Scan(ts[1..], false, depth)
    else
      if ts[0].Close? then depth > 0 && Scan(ts[1..], false, depth - 1)
      else (ts[0].And? || ts[0].Or?) && Scan(ts[1..], true, depth)
  }

  lemma {:induction false} ScannedIsParsed(ts: seq<Token>, depth: nat)
    requires Scan(ts, true, depth)
    ensures var r := ParseOr(ts);
            r.Some? && Scan(r.value.1, false, depth) && (r.value.1 == [] || r.value.1[0].Close?)
    decreases |ts|, 2
  {
    ScannedAnd(ts, depth);
    var rest := ParseAnd(ts).value.1;
    if rest != [] && rest[0].Or? {
      ScannedIsParsed(rest[1..], depth);
    }
  }

  lemma {:induction false} ScannedAnd(ts: seq<Token>, depth: nat)
    requires Scan(ts, true, depth)
    ensures var r := ParseAnd(ts);
            r.Some? && Scan(r.value.1, false, depth) && (r.value.1 == [] || !r.value.1[0].And?)
    decreases |ts|, 1
  {
    ScannedOperand(ts, depth);
    var rest := ParseOperand(ts).value.1;
    if rest != [] && rest[0].And? {
      ScannedAnd(rest[1..], depth);
    }
  }

  lemma {:induction false} ScannedOperand(ts: seq<Token>, depth: nat)
    requires Scan(ts, true, depth)
    ensures var r := ParseOperand(ts);
            r.Some? && Scan(r.value.1, false, depth)
    decreases |ts|, 0
  {
    if ts[0].Open? {
      ScannedIsParsed(ts[1..], depth + 1);
    }
  }

  lemma {:induction false} ParsedIsScanned(ts: seq<Token>, depth: nat)
    requires ParseOr(ts).Some? && Scan(ParseOr(ts).value.1, false, depth)
    ensures Scan(ts, true, depth)
    decreases |ts|, 2
  {
    var rest := ParseAnd(ts).value.1;
    if rest != [] && rest[0].Or? {
      ParsedIsScanned(rest[1..], depth);
    }
    ParsedAndIsScanned(ts, depth);
  }

  lemma {:induction false} ParsedAndIsScanned(ts: seq<Token>, depth: nat)
    requires ParseAnd(ts).Some? && Scan(ParseAnd(ts).value.1, false, depth)
    ensures Scan(ts, true, depth)
    decreases |ts|, 1
  {
    var rest := ParseOperand(ts).value.1;
    if rest != [] && rest[0].And? {
      ParsedAndIsScanned(rest[1..], depth);
    }
    ParsedOperandIsScanned(ts, depth);
  }

  lemma {:induction false} ParsedOperandIsScanned(ts: seq<Token>, depth: nat)
    requires ParseOperand(ts).Some? && Scan(ParseOperand(ts).value.1, false, depth)
    ensures Scan(ts, true, depth)
    decreases |ts|, 0
  {
    if ts[0].Open? {
      assert Scan(ParseOr(ts[1..]).value.1, false, depth + 1);
      ParsedIsScanned(ts[1..], depth + 1);
    }
  }

  // A clause has a meaning if and only if the scan accepts it.
  lemma ReadableIffScanned(ts: seq<Token>, v: Token -> Tri)
    ensures Meaning(ts, v).Some? <==> Scan(ts, true, 0)
  {
    if Scan(ts, true, 0) {
      ScannedIsParsed(ts, 0);
    }
    if Meaning(ts, v).Some? {
      ParsedIsScanned(ts, 0);
    }
  }

  // ---- reading on inside a longer sequence

  lemma {:induction false} ParseOrBefore(ts: seq<Token>, ext: seq<Token>)
    requires ParseOr(ts).Some? && ext != [] && ext[0].Close?
    ensures ParseOr(ts + ext) == Some((ParseOr(ts).value.0, ParseOr(ts).value.1 + ext))
    decreases |ts|, 2
  {
    ParseAndBefore(ts, ext);
    var rest := ParseAnd(ts).value.1;
    if rest != [] && rest[0].Or? {
      ParseOrBefore(rest[1..], ext);
      assert (rest + ext)[1..] == rest[1..] + ext;
    }
  }

  lemma {:induction false} ParseAndBefore(ts: seq<Token>, ext: seq<Token>)
    requires ParseAnd(ts).Some? && ext != [] && ext[0].Close?
    ensures ParseAnd(ts + ext) == Some((ParseAnd(ts).value.0, ParseAnd(ts).value.1 + ext))
    decreases |ts|, 1
  {
    ParseOperandBefore(ts, ext);
    var rest := ParseOperand(ts).value.1;
    if rest != [] && rest[0].And? {
      ParseAndBefore(rest[1..], ext);
      assert (rest + ext)[1..] == rest[1..] + ext;
    }
  }

  lemma {:induction false} ParseOperandBefore(ts: seq<Token>, ext: seq<Token>)
    requires ParseOperand(ts).Some? && ext != [] && ext[0].Close?
    ensures ParseOperand(ts + ext) == Some((ParseOperand(ts).value.0, ParseOperand(ts).value.1 + ext))
    decreases |ts|, 0
  {
    assert (ts + ext)[1..] == ts[1..] + ext;
    if ts[0].Open? {
      ParseOrBefore(ts[1..], ext);
      var rest := ParseOr(ts[1..]).value.1;
      assert (rest + ext)[1..] == rest[1..] + ext;
    }
  }

  // ( ts ) followed by further AND operands is one conjunction
  lemma BracketedThenAnd(ts: seq<Token>, more: seq<Token>, v: Token -> Tri)
    requires Meaning(ts, v).Some?
    requires ParseAnd(more).Some? && ParseAnd(more).value.1 == []
    ensures Meaning([Open] + ts + [Close, And] + more, v)
         == Some(And3(Meaning(ts, v).value, Eval(ParseAnd(more).value.0, v)))
    ensures ParseAnd([Open] + ts + [Close, And] + more)
         == Some((Both(ParseOr(ts).value.0, ParseAnd(more).value.0), []))
  {
    var ext := [Close, And] + more;
    var all := [Open] + ts + [Close, And] + more;
    assert all[1..] == ts + ext;
    ParseOrBefore(ts, ext);
    assert [] + ext == ext;
    assert ext[1..] == [And] + more;
    assert ([And] + more)[1..] == more;
    var t := ParseOr(ts).value.0;
    assert ParseOperand(all) == Some((t, [And] + more));
    assert ParseAnd(all) == Some((Both(t, ParseAnd(more).value.0), []));
    assert ParseOr(all) == ParseAnd(all);
  }

  lemma Bracketed1(ts: seq<Token>, v: Token -> Tri)
    requires Meaning(ts, v).Some?
    ensures Meaning([Open] + ts + [Close], v) == Meaning(ts, v)
  {
    var all := [Open] + ts + [Close];
    assert all[1..] == ts + [Close];
    ParseOrBefore(ts, [Close]);
    assert [] + [Close] == [Close] && [Close][1..] == [];
    assert ParseOperand(all) == Some((ParseOr(ts).value.0, []));
    assert ParseOr(all) == ParseAnd(all) == ParseOperand(all);
  }

  // ---- sequences without OR

  ghost predicate RestIn(r: Parsed, ts: seq<Token>) {
    r.Some? ==> forall t :: t in r.value.1 ==> t in ts
  }

  lemma {:induction false} RestIsPart(ts: seq<Token>)
    ensures RestIn(ParseOr(ts), ts) && RestIn(ParseAnd(ts), ts) && RestIn(ParseOperand(ts), ts)
    decreases |ts|, 1
  {
    if ts != [] {
      assert forall t :: t in ts[1..] ==> t in ts;
      if ts[0].Open? {
        RestIsPart(ts[1..]);
        var inner := ParseOr(ts[1..]);
        assert inner.Some? && inner.value.1 != [] ==> forall t :: t in inner.value.1[1..] ==> t in inner.value.1;
      }
    }
    assert RestIn(ParseOperand(ts), ts);
    RestAfterConnector(ParseOperand(ts), ts);
    assert RestIn(ParseAnd(ts), ts);
    RestAfterConnector(ParseAnd(ts), ts);
  }

  lemma {:induction false} RestAfterConnector(r: Parsed, ts: seq<Token>)
    requires RestIn(r, ts)
    requires r.Some? ==> |r.value.1| < |ts|
    ensures r.Some? && r.value.1 != [] ==>
              RestIn(ParseOr(r.value.1[1..]), ts) && RestIn(ParseAnd(r.value.1[1..]), ts)
    decreases |ts|, 0
  {
    if r.Some? && r.value.1 != [] {
      var rest := r.value.1[1..];
      assert forall t :: t in rest ==> t in r.value.1;
      RestIsPart(rest);
    }
  }

  lemma WithoutOr(ts: seq<Token>, v: Token -> Tri)
    requires Meaning(ts, v).Some?
    requires Or !in ts
    ensures ParseAnd(ts) == ParseOr(ts)
  {
    RestIsPart(ts);
    var rest := ParseAnd(ts).value.1;
    if rest != [] {
      assert rest[0] in ts;
    }
  }

  // ---- an OR outside of all brackets

  function DepthAfterToken(t: Token, depth: int): int {
    if t.Open? then depth + 1 else if t.Close? then depth - 1 else depth
  }

  // some OR stands at depth 0, if the sequence begins at the given depth
  predicate OrOutside(ts: seq<Token>, depth: int) {
    ts != [] && ((ts[0].Or? && depth == 0) || OrOutside(ts[1..], DepthAfterToken(ts[0], depth)))
  }

  // What is inside of brackets does not matter for what stands outside.
  lemma {:induction false} OperandHasNoOuterOr(ts: seq<Token>, depth: nat)
    requires ParseOperand(ts).Some?
    ensures OrOutside(ts, depth) == OrOutside(ParseOperand(ts).value.1, depth)
    decreases |ts|, 0
  {
    if ts[0].Open? {
      ClauseInBracketsHasNoOuterOr(ts[1..], depth + 1);
    }
  }

  lemma {:induction false} ConjunctionHasNoOuterOr(ts: seq<Token>, depth: nat)
    requires ParseAnd(ts).Some?
    ensures OrOutside(ts, depth) == OrOutside(ParseAnd(ts).value.1, depth)
    decreases |ts|, 1
  {
    OperandHasNoOuterOr(ts, depth);
    var rest := ParseOperand(ts).value.1;
    if rest != [] && rest[0].And? {
      ConjunctionHasNoOuterOr(rest[1..], depth);
    }
  }

  lemma {:induction false} ClauseInBracketsHasNoOuterOr(ts: seq<Token>, depth: nat)
    requires ParseOr(ts).Some? && depth > 0
    ensures OrOutside(ts, depth) == OrOutside(ParseOr(ts).value.1, depth)
    decreases |ts|, 2
  {
    ConjunctionHasNoOuterOr(ts, depth);
    var rest := ParseAnd(ts).value.1;
    if rest != [] && rest[0].Or? {
      ClauseInBracketsHasNoOuterOr(rest[1..], depth);
    }
  }

  // A readable clause is one conjunction if and only if no OR stands outside of its brackets.
  lemma ConjunctionIffNoOuterOr(ts: seq<Token>)
    requires Scan(ts, true, 0)
    ensures ParseAnd(ts).Some? && (ParseAnd(ts).value.1 != [] <==> OrOutside(ts, 0))
    ensures ParseAnd(ts).value.1 != [] ==> ParseAnd(ts).value.1[0].Or?
  {
    ScannedAnd(ts, 0);
    ConjunctionHasNoOuterOr(ts, 0);
  }

  // ---- reading a clause that goes on

  lemma {:induction false} OperandGoesOn(ts: seq<Token>, ext: seq<Token>)
    requires ParseOperand(ts).Some?
    ensures ParseOperand(ts + ext) == Some((ParseOperand(ts).value.0, ParseOperand(ts).value.1 + ext))
    decreases |ts|, 0
  {
    assert (ts + ext)[1..] == ts[1..] + ext;
    if ts[0].Open? {
      ClauseGoesOn(ts[1..], ext);
      var rest := ParseOr(ts[1..]).value.1;
      assert (rest + ext)[1..] == rest[1..] + ext;
    }
  }

  lemma {:induction false} ConjunctionGoesOn(ts: seq<Token>, ext: seq<Token>)
    requires ParseAnd(ts).Some? && ParseAnd(ts).value.1 != []
    ensures ParseAnd(ts + ext) == Some((ParseAnd(ts).value.0, ParseAnd(ts).value.1 + ext))
    decreases |ts|, 1
  {
    OperandGoesOn(ts, ext);
    var rest := ParseOperand(ts).value.1;
    if rest[0].And? {
      ConjunctionGoesOn(rest[1..], ext);
      assert (rest + ext)[1..] == rest[1..] + ext;
    }
  }

  lemma {:induction false} ClauseGoesOn(ts: seq<Token>, ext: seq<Token>)
    requires ParseOr(ts).Some? && ParseOr(ts).value.1 != []
    ensures ParseOr(ts + ext) == Some((ParseOr(ts).value.0, ParseOr(ts).value.1 + ext))
    decreases |ts|, 2
  {
    ConjunctionGoesOn(ts, ext);
    var rest := ParseAnd(ts).value.1;
    if rest[0].Or? {
      ClauseGoesOn(rest[1..], ext);
      assert (rest + ext)[1..] == rest[1..] + ext;
    }
  }

  // A clause that goes on with AND more: the last of its conjunctions gets more operands.
  lemma {:induction false} ConjunctionThenAnd(ts: seq<Token>, more: seq<Token>) returns (t: Tree)
    requires ParseAnd(ts).Some? && ParseAnd(ts).value.1 == []
    requires ParseAnd(more).Some? && ParseAnd(more).value.1 == []
    ensures ParseAnd(ts + ([And] + more)) == Some((t, []))
    ensures forall v: Token -> Tri :: Eval(t, v) == And3(Eval(ParseAnd(ts).value.0, v), Eval(ParseAnd(more).value.0, v))
    decreases |ts|
  {
    var ext := [And] + more;
    assert ext[1..] == more;
    OperandGoesOn(ts, ext);
    var rest := ParseOperand(ts).value.1;
    if rest == [] {
      assert rest + ext == ext;
      t := Both(ParseOperand(ts).value.0, ParseAnd(more).value.0);
    } else {
      assert (rest + ext)[1..] == rest[1..] + ext;
      var u := ConjunctionThenAnd(rest[1..], more);
      t := Both(ParseOperand(ts).value.0, u);
    }
  }
}
