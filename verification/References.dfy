/** Relationship values that are set from the partner's side: which records of another relation refer to
    a record, directly (1:n) or through a relation between both (n:m) (data/data_set.go). */
module References {
  import opened Wrappers

  // ---- 1:n, a column of the partner relation by record ID

  type Column = map<int, Option<int>>

  function Referring(column: Column, record: int): set<int> {
    set id | id in column && column[id] == Some(record)
  }

  function Assigned(column: Column, record: int, values: seq<int>): Column {
    map id | id in column ::
      if id in values then Some(record) else if column[id] == Some(record) then None else column[id]
  }

  // what the database keeps of such a column: with a 1:1 relationship, that no two records refer to the same
  // one; if it may not be empty, that every record refers to one
  ghost predicate Respects(column: Column, unique: bool, nullable: bool) {
    && (unique ==> forall a, b :: a in column && b in column && a != b && column[a] == column[b] ==> column[a] == None)
    && (!nullable ==> forall id :: id in column ==> column[id].Some?)
  }

  class PartnerRelation {
    const unique: bool
    const nullable: bool
    var column: Column

    constructor (column: Column, unique: bool, nullable: bool)
      ensures this.column == column && this.unique == unique && this.nullable == nullable
    {
      this.column, this.unique, this.nullable := column, unique, nullable;
    }

    // the request fails with a statement that the database refuses
    method SetReferences(record: int, values: seq<int>) returns (ok: bool)
      requires Respects(column, unique, nullable)
      modifies this
      ensures ok <==> Respects(Assigned(old(column), record, values), unique, nullable)
      ensures ok ==> column == Assigned(old(column), record, values)
    {
      RespectsIff(column, unique, nullable, record, values);
      if |values| == 0 {
        if !nullable && exists id :: id in column && column[id] == Some(record) {
          return false;
        }
        column := map id | id in column :: if column[id] == Some(record) then None else column[id];
        return true;
      }
      if !nullable && exists id :: id in column && column[id] == Some(record) && id !in values {
        return false;
      }
      column := map id | id in column ::
        if column[id] == Some(record) && id !in values then None else column[id];
      if unique && exists a, b :: a in column && b in column && a != b && a in values && b in values {
        return false;
      }
      column := map id | id in column :: if id in values then Some(record) else column[id];
      return true;
    }
  }

  // The assignment keeps what the column has to respect if and only if no record has to give up its reference
  // to this one where it needs one, and, with a 1:1 relationship, at most one of the given records exists.
  lemma RespectsIff(column: Column, unique: bool, nullable: bool, record: int, values: seq<int>)
    requires Respects(column, unique, nullable)
    ensures Respects(Assigned(column, record, values), unique, nullable) <==>
            && (nullable || forall id :: id in column && column[id] == Some(record) ==> id in values)
            && (!unique || forall a, b :: a in column && b in column && a in values && b in values ==> a == b)
  {
    var after := Assigned(column, record, values);
    if !nullable && Respects(after, unique, nullable) {
      forall id | id in column && column[id] == Some(record)
        ensures id in values
      {
        assert after[id].Some?;
      }
    }
    if unique && Respects(after, unique, nullable) {
      forall a, b | a in column && b in column && a in values && b in values
        ensures a == b
      {
        assert after[a] == after[b] == Some(record);
      }
    }
  }

  // Afterwards the records that refer to this one are the given ones, as far as they exist, and all
  // other records refer to what they referred to.
  lemma AssignedAreTheValues(column: Column, record: int, values: seq<int>)
    ensures Referring(Assigned(column, record, values), record) == set id | id in column && id in values
    ensures forall other :: other != record ==>
              Referring(Assigned(column, record, values), other) == Referring(column, other) - set id | id in values
  {
  }

  // Setting the former references again brings back the former state if and only if none of the given
  // records was taken from another one.
  lemma UndoneIffNothingTaken(column: Column, record: int, values: seq<int>, former: seq<int>)
    requires (set id | id in former) == Referring(column, record)
    ensures Assigned(Assigned(column, record, values), record, former) == column <==>
            forall id :: id in column && id in values ==> column[id] == None || column[id] == Some(record)
  {
    var back := Assigned(Assigned(column, record, values), record, former);
    forall id | id in column
      ensures id in former <==> column[id] == Some(record)
      ensures back[id] == if id in values && column[id] != Some(record) then None else column[id]
    {
      assert id in (set x | x in former) <==> id in Referring(column, record);
    }
    if forall id :: id in column && id in values ==> column[id] == None || column[id] == Some(record) {
      assert back == column;
    }
  }

  // ---- n:m, the rows of the relation in between

  datatype Reference = Reference(record: int, partner: int)

  function Partners(rows: seq<Reference>, record: int): seq<int> {
    if rows == [] then []
    else
      var n := |rows| - 1;
      Partners(rows[..n], record) + if rows[n].record == record then [rows[n].partner] else []
  }

  function Without(rows: seq<Reference>, r: Reference): seq<Reference> {
    if rows == [] then []
    else
      var n := |rows| - 1;
      Without(rows[..n], r) + if rows[n] == r then [] else [rows[n]]
  }

  lemma {:induction false} PartnersHave(rows: seq<Reference>, record: int, partner: int)
    ensures partner in Partners(rows, record) <==> Reference(record, partner) in rows
  {
    if rows != [] {
      var n := |rows| - 1;
      PartnersHave(rows[..n], record, partner);
      assert rows == rows[..n] + [rows[n]];
    }
  }

  lemma {:induction false} WithoutRemoves(rows: seq<Reference>, r: Reference, x: Reference)
    ensures multiset(Without(rows, r))[x] == if x == r then 0 else multiset(rows)[x]
  {
    if rows != [] {
      var n := |rows| - 1;
      WithoutRemoves(rows[..n], r, x);
      assert rows == rows[..n] + [rows[n]];
    }
  }

  // how often a row is there after the references of a record were set
  function RowsAfter(rows: seq<Reference>, record: int, values: seq<int>, x: Reference): nat {
    if x.record != record then multiset(rows)[x]
    else if x.partner !in values then 0
    else if x in rows then multiset(rows)[x]
    else multiset(values)[x.partner]
  }

  function Added(record: int, valuesCurr: seq<int>, values: seq<int>, x: Reference): nat {
    if x.record == record && x.partner !in valuesCurr then multiset(values)[x.partner] else 0
  }

  class NmRelation {
    var rows: seq<Reference>

    constructor (rows: seq<Reference>)
      ensures this.rows == rows
    {
      this.rows := rows;
    }

    method Delete(r: Reference)
      modifies this
      ensures rows == Without(old(rows), r)
    {
      var kept := [];
      for i := 0 to |rows|
        invariant rows == old(rows)
        invariant kept == Without(rows[..i], r)
      {
        assert rows[..i + 1][..i] == rows[..i];
        if rows[i] != r {
          kept := kept + [rows[i]];
        }
      }
      assert rows[..|rows|] == rows;
      rows := kept;
    }

    method DeleteAll(record: int)
      modifies this
      ensures forall x: Reference :: multiset(rows)[x] == if x.record == record then 0 else multiset(old(rows))[x]
    {
      var kept := [];
      for i := 0 to |rows|
        invariant rows == old(rows)
        invariant forall x: Reference :: multiset(kept)[x] == if x.record == record then 0 else multiset(rows[..i])[x]
      {
        assert rows[..i + 1] == rows[..i] + [rows[i]];
        if rows[i].record != record {
          kept := kept + [rows[i]];
        }
      }
      assert rows[..|rows|] == rows;
      rows := kept;
    }

    // partners: the records of the other relation; a row that refers to none of them is rejected
    method SetReferences(record: int, values: seq<int>, partners: set<int>) returns (ok: bool)
      requires forall x :: x in rows ==> x.partner in partners
      modifies this
      ensures ok <==> forall v :: v in values ==> v in partners
      ensures ok ==> forall x: Reference :: multiset(rows)[x] == RowsAfter(old(rows), record, values, x)
    {
      if |values| == 0 {
        DeleteAll(record);
        return true;
      }
      var valuesCurr := Partners(rows, record);
      forall v: int
        ensures v in valuesCurr <==> Reference(record, v) in rows
      {
        PartnersHave(rows, record, v);
      }
      RemoveOld(record, valuesCurr, values);
      ok := AddNew(record, valuesCurr, values, partners);
      forall v | v in values
        ensures v in valuesCurr ==> v in partners
      {
        assert v in valuesCurr ==> Reference(record, v) in old(rows);
      }
    }

    method RemoveOld(record: int, valuesCurr: seq<int>, values: seq<int>)
      modifies this
      ensures forall x: Reference :: multiset(rows)[x] ==
                if x.record == record && x.partner in valuesCurr && x.partner !in values then 0
                else multiset(old(rows))[x]
    {
      for i := 0 to |valuesCurr|
        invariant forall x: Reference :: multiset(rows)[x] ==
                    if x.record == record && x.partner in valuesCurr[..i] && x.partner !in values then 0
                    else multiset(old(rows))[x]
      {
        assert valuesCurr[..i + 1] == valuesCurr[..i] + [valuesCurr[i]];
        if valuesCurr[i] in values {
          continue;
        }
        ghost var before := rows;
        Delete(Reference(record, valuesCurr[i]));
        forall x: Reference
          ensures multiset(rows)[x] == if x == Reference(record, valuesCurr[i]) then 0 else multiset(before)[x]
        {
          WithoutRemoves(before, Reference(record, valuesCurr[i]), x);
        }
      }
      assert valuesCurr[..|valuesCurr|] == valuesCurr;
    }

    method AddNew(record: int, valuesCurr: seq<int>, values: seq<int>, partners: set<int>) returns (ok: bool)
      modifies this
      ensures ok <==> forall v :: v in values && v !in valuesCurr ==> v in partners
      ensures ok ==> forall x: Reference ::
                multiset(rows)[x] == multiset(old(rows))[x] + Added(record, valuesCurr, values, x)
    {
      for i := 0 to |values|
        invariant forall k :: 0 <= k < i && values[k] !in valuesCurr ==> values[k] in partners
        invariant forall x: Reference ::
                    multiset(rows)[x] == multiset(old(rows))[x] + Added(record, valuesCurr, values[..i], x)
      {
        assert values[..i + 1] == values[..i] + [values[i]];
        var value := values[i];
        if value in valuesCurr {
          continue;
        }
        if value !in partners {
          assert value in values;
          return false;
        }
        rows := rows + [Reference(record, value)];
      }
      assert values[..|values|] == values;
      return true;
    }
  }

  // Afterwards the partners of the record are exactly the given ones, and setting them a second time
  // changes nothing, while a partner that was given twice is there twice.
  lemma PartnersAreTheValues(rows: seq<Reference>, record: int, values: seq<int>, after: seq<Reference>)
    requires forall x: Reference :: multiset(after)[x] == RowsAfter(rows, record, values, x)
    ensures forall v :: v in Partners(after, record) <==> v in values
    ensures forall x: Reference :: x.record != record ==> multiset(after)[x] == multiset(rows)[x]
    ensures forall x :: RowsAfter(after, record, values, x) == multiset(after)[x]
    ensures forall v :: v in values && Reference(record, v) !in rows ==>
              multiset(after)[Reference(record, v)] == multiset(values)[v]
    ensures forall v :: v in values && Reference(record, v) in rows ==>
              multiset(after)[Reference(record, v)] == multiset(rows)[Reference(record, v)]
  {
    forall v
      ensures v in Partners(after, record) <==> v in values
    {
      PartnersHave(after, record, v);
      assert RowsAfter(rows, record, values, Reference(record, v)) > 0 <==> v in values;
      assert Reference(record, v) in after <==> multiset(after)[Reference(record, v)] > 0;
    }
    forall x
      ensures RowsAfter(after, record, values, x) == multiset(after)[x]
    {
      assert multiset(after)[x] == RowsAfter(rows, record, values, x);
      assert x in after <==> multiset(after)[x] > 0;
    }
  }
}
