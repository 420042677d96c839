/** From the values of a data SET request to the columns and references that are written, and to what the
    references do to other relations (data/data_set.go). */
module DataSetReferences {
  import opened Wrappers
  import opened DataRequest
  import opened SchemaCache
  import DataSets
  import References

  // ---- which values are references, which are columns

  // a value given for the relationship attribute of another relation, which refers to the record
  predicate IsReference(sc: Cache, a: DataSets.SetAttribute) {
    a.outsideIn && a.attributeId in sc.attributes &&
        sc.attributes[a.attributeId].content in {Relationship, Relationship11}
  }

  predicate IsColumn(sc: Cache, a: DataSets.SetAttribute) {
    && a.attributeId in sc.attributes && sc.attributes[a.attributeId].content != Files
    && !(a.outsideIn && sc.attributes[a.attributeId].content in {Relationship, Relationship11})
  }

  // the records that a value names: those of a list, or the one of a number
  predicate Named(value: DataSets.SetValue, ids: seq<int>) {
    match value
    case RecordIds(list) => ids == list
    case Single(v) => if v.Number? then ids == [v.n] else ids == []
  }

  function Count(sc: Cache, attributes: seq<DataSets.SetAttribute>, references: bool): nat {
    if attributes == [] then 0
    else
      var a := attributes[|attributes| - 1];
      Count(sc, attributes[..|attributes| - 1], references) +
      if (if references then IsReference(sc, a) else IsColumn(sc, a)) then 1 else 0
  }

  // attribute k is the reference number p of its data set
  predicate ReferenceAt(attributes: seq<DataSets.SetAttribute>, k: nat, references: seq<DataSets.Reference>, p: nat)
    requires k < |attributes|
  {
    && p < |references| && references[p].attributeId == attributes[k].attributeId
    && references[p].attributeIdNm == attributes[k].attributeIdNm && Named(attributes[k].value, references[p].values)
  }

  // The references are the values given for relationships of other relations, in their order.
  lemma {:induction false} ReferencesAreTheValues(sc: Cache, attributes: seq<DataSets.SetAttribute>)
    ensures |DataSets.ReferencesIn(sc, attributes)| == Count(sc, attributes, true)
    ensures forall k :: 0 <= k < |attributes| && IsReference(sc, attributes[k]) ==>
              ReferenceAt(attributes, k, DataSets.ReferencesIn(sc, attributes), Count(sc, attributes[..k], true))
  {
    if attributes != [] {
      var n := |attributes| - 1;
      ReferencesAreTheValues(sc, attributes[..n]);
      var all, before := DataSets.ReferencesIn(sc, attributes), DataSets.ReferencesIn(sc, attributes[..n]);
      forall k | 0 <= k < |attributes| && IsReference(sc, attributes[k])
        ensures ReferenceAt(attributes, k, all, Count(sc, attributes[..k], true))
      {
        if k < n {
          assert attributes[..n][..k] == attributes[..k];
          assert ReferenceAt(attributes[..n], k, before, Count(sc, attributes[..k], true));
        }
      }
    }
  }

  // The columns are all other values but those for files, as they are given and in their order.
  lemma {:induction false} ColumnsAreTheValues(sc: Cache, attributes: seq<DataSets.SetAttribute>)
    ensures |DataSets.OwnColumns(sc, attributes)| == Count(sc, attributes, false)
    ensures forall k :: 0 <= k < |attributes| && IsColumn(sc, attributes[k]) ==>
              var p := Count(sc, attributes[..k], false);
              p < |DataSets.OwnColumns(sc, attributes)| &&
              DataSets.OwnColumns(sc, attributes)[p] == (attributes[k].attributeId, attributes[k].value)
  {
    if attributes != [] {
      var n := |attributes| - 1;
      ColumnsAreTheValues(sc, attributes[..n]);
      forall k | 0 <= k < n
        ensures attributes[..n][..k] == attributes[..k]
      {
      }
    }
  }

  // ---- what the references do

  // the columns by which records refer directly, by attribute
  type Columns = map<Id, References.Column>

  // an n:m reference works on the rows of a relation of its own
  function Apply(columns: Columns, record: int, r: DataSets.Reference): Columns {
    if r.attributeIdNm.Some? || r.attributeId !in columns then columns
    else columns[r.attributeId := References.Assigned(columns[r.attributeId], record, r.values)]
  }

  function ApplyAll(columns: Columns, record: int, references: seq<DataSets.Reference>): Columns {
    if references == [] then columns
    else
      var n := |references| - 1;
      Apply(ApplyAll(columns, record, references[..n]), record, references[n])
  }

  // the same records, whatever they refer to
  lemma {:induction false} RecordsStay(columns: Columns, record: int, references: seq<DataSets.Reference>, id: Id)
    requires id in columns
    ensures id in ApplyAll(columns, record, references)
    ensures ApplyAll(columns, record, references)[id].Keys == columns[id].Keys
  {
    if references != [] {
      RecordsStay(columns, record, references[..|references| - 1], id);
    }
  }

  // the last direct reference by an attribute decides who refers to the record by it
  lemma {:induction false} LastReferenceDecides(columns: Columns, record: int, references: seq<DataSets.Reference>,
                                                p: nat)
    requires p < |references| && references[p].attributeIdNm.None? && references[p].attributeId in columns
    requires forall m :: p < m < |references| ==> references[m].attributeId != references[p].attributeId
    ensures var id := references[p].attributeId;
            id in ApplyAll(columns, record, references) &&
            References.Referring(ApplyAll(columns, record, references)[id], record) ==
            set x | x in columns[id] && x in references[p].values
  {
    var n, id := |references| - 1, references[p].attributeId;
    var before := ApplyAll(columns, record, references[..n]);
    RecordsStay(columns, record, references[..n], id);
    if p == n {
      References.AssignedAreTheValues(before[id], record, references[p].values);
      assert forall x :: x in before[id] <==> x in columns[id];
    } else {
      LastReferenceDecides(columns, record, references[..n], p);
      assert ApplyAll(columns, record, references)[id] == before[id];
    }
  }

  lemma {:induction false} CountGrows(sc: Cache, attributes: seq<DataSets.SetAttribute>, j: nat, k: nat)
    requires j <= k <= |attributes|
    ensures Count(sc, attributes[..j], true) <= Count(sc, attributes[..k], true)
    decreases k
  {
    if j < k {
      CountGrows(sc, attributes, j, k - 1);
      assert attributes[..k][..k - 1] == attributes[..k - 1];
    }
  }

  // every reference comes from an attribute
  lemma {:induction false} ReferenceComesFrom(sc: Cache, attributes: seq<DataSets.SetAttribute>, p: nat)
    returns (k: nat)
    requires p < Count(sc, attributes, true)
    ensures k < |attributes| && IsReference(sc, attributes[k]) && Count(sc, attributes[..k], true) == p
  {
    var n := |attributes| - 1;
    if IsReference(sc, attributes[n]) && p == Count(sc, attributes[..n], true) {
      k := n;
    } else {
      k := ReferenceComesFrom(sc, attributes[..n], p);
      assert attributes[..n][..k] == attributes[..k];
    }
  }

  // of the records there are, the given ones refer to the record
  predicate OnlyThese(before: References.Column, after: References.Column, record: int, ids: seq<int>) {
    References.Referring(after, record) == set x | x in before && x in ids
  }

  // Main result: once what a complete write has logged for a record is done, the existing records given for a
  // relationship of another relation, and no others, refer to the record by it. The last value given for an
  // attribute counts.
  lemma GivenRecordsRefer(sc: Cache, sets: DataSets.Request, log: seq<DataSets.Write>, n: nat, k: nat, columns: Columns)
    requires DataSets.Complete(sc, sets, log) && n < |log| && log[n].index in sets
    requires k < |sets[log[n].index].attributes|
    requires var attributes := sets[log[n].index].attributes;
             && IsReference(sc, attributes[k]) && attributes[k].attributeIdNm.None?
             && attributes[k].attributeId in columns
             && forall j :: k < j < |attributes| && IsReference(sc, attributes[j]) ==>
                  attributes[j].attributeId != attributes[k].attributeId
    ensures var a := sets[log[n].index].attributes[k];
            var after := ApplyAll(columns, log[n].recordId, log[n].references);
            && a.attributeId in after
            && exists ids: seq<int> :: Named(a.value, ids) &&
                                       OnlyThese(columns[a.attributeId], after[a.attributeId], log[n].recordId, ids)
  {
    var attributes := sets[log[n].index].attributes;
    assert DataSets.EntryRight(sc, sets, log[..n], log[n]);
    ReferencesAreTheValues(sc, attributes);
    var references := log[n].references;
    var p := Count(sc, attributes[..k], true);
    assert ReferenceAt(attributes, k, references, p);
    forall m | p < m < |references|
      ensures references[m].attributeId != references[p].attributeId
    {
      var j := ReferenceComesFrom(sc, attributes, m);
      if j <= k {
        CountGrows(sc, attributes, j, k);
      }
      assert ReferenceAt(attributes, j, references, m);
    }
    LastReferenceDecides(columns, log[n].recordId, references, p);
    assert Named(attributes[k].value, references[p].values);
  }

  // ---- which requests can be written

  predicate KnownRelation(sc: Cache, id: Id) {
    id in sc.relations && sc.relations[id].moduleId in sc.modules
  }

  // a value that is given for a relationship of another relation: where it is held must be known, and for a n:m
  // relationship with a record to refer also the attribute of the partner
  predicate KnownReference(sc: Cache, a: DataSets.SetAttribute) {
    && a.attributeId in sc.attributes && KnownRelation(sc, sc.attributes[a.attributeId].relationId)
    && (a.attributeIdNm.Some? ==> Named(a.value, []) || a.attributeIdNm.value in sc.attributes)
  }

  lemma {:induction false} ColumnsIffValues(sc: Cache, attributes: seq<DataSets.SetAttribute>)
    ensures DataSets.OwnColumns(sc, attributes) != [] <==>
            exists k :: 0 <= k < |attributes| && IsColumn(sc, attributes[k])
  {
    if attributes != [] {
      var n := |attributes| - 1;
      ColumnsIffValues(sc, attributes[..n]);
      if k :| 0 <= k < n && IsColumn(sc, attributes[k]) {
        assert IsColumn(sc, attributes[..n][k]);
      }
      if k :| 0 <= k < n && IsColumn(sc, attributes[..n][k]) {
        assert IsColumn(sc, attributes[k]);
      }
    }
  }

  lemma ReferencesKnown(sc: Cache, s: DataSets.DataSet)
    ensures DataSets.UnwritableReferences(sc, s) <==>
            exists k ::
              0 <= k < |s.attributes| && IsReference(sc, s.attributes[k]) && !KnownReference(sc, s.attributes[k])
  {
    var references := DataSets.ReferencesIn(sc, s.attributes);
    ReferencesAreTheValues(sc, s.attributes);
    if k :| 0 <= k < |s.attributes| && IsReference(sc, s.attributes[k]) && !KnownReference(sc, s.attributes[k]) {
      var p := Count(sc, s.attributes[..k], true);
      assert ReferenceAt(s.attributes, k, references, p) && DataSets.UnknownReference(sc, references[p]);
    }
    if p :| 0 <= p < |references| && DataSets.UnknownReference(sc, references[p]) {
      var k := ReferenceComesFrom(sc, s.attributes, p);
      assert ReferenceAt(s.attributes, k, references, p);
      assert !KnownReference(sc, s.attributes[k]);
    }
  }

  // the attributes of all joins of a data set, from it and to it, are known
  predicate KnownJoins(sc: Cache, sets: DataSets.Request, i: int)
    requires i in sets
  {
    && (sets[i].indexFrom in sets && sets[i].indexFrom != i ==> sets[i].attributeId in sc.attributes)
    && forall x :: x in sets && x != i && sets[x].indexFrom == i ==> sets[x].attributeId in sc.attributes
  }

  // A data set can be written, as far as the schema is concerned, if and only if its relation and attributes are
  // known, so are the attributes of its joins if it is new, and where its references are held; the policy for
  // updates matters to an existing record for which columns are given.
  lemma WritableIffKnown(sc: Cache, sets: DataSets.Request, i: int)
    requires i in sets
    ensures var s := sets[i];
            !DataSets.Unwritable(sc, sets, i) <==>
            && KnownRelation(sc, s.relationId)
            && (forall k :: 0 <= k < |s.attributes| ==> s.attributes[k].attributeId in sc.attributes)
            && (s.recordId == 0 ==> KnownJoins(sc, sets, i))
            && (s.recordId != 0 && (exists k :: 0 <= k < |s.attributes| && IsColumn(sc, s.attributes[k])) ==>
                  PolicyFilter(sc, "update", 0, 0, sc.relations[s.relationId].policies).Success?)
            && forall k :: 0 <= k < |s.attributes| && IsReference(sc, s.attributes[k]) ==>
                 KnownReference(sc, s.attributes[k])
  {
    var s := sets[i];
    ColumnsIffValues(sc, s.attributes);
    ReferencesKnown(sc, s);
    JoinsKnown(sc, sets, i);
  }

  lemma JoinsKnown(sc: Cache, sets: DataSets.Request, i: int)
    requires i in sets
    ensures KnownJoins(sc, sets, i) <==> !exists x :: x in sets && DataSets.UnknownJoin(sc, sets, i, x)
  {
    if KnownJoins(sc, sets, i) {
      assert forall x :: x in sets ==> !DataSets.UnknownJoin(sc, sets, i, x);
    } else if sets[i].indexFrom in sets && sets[i].indexFrom != i && sets[i].attributeId !in sc.attributes {
      assert DataSets.UnknownJoin(sc, sets, i, sets[i].indexFrom);
    } else {
      var x :| x in sets && x != i && sets[x].indexFrom == i && sets[x].attributeId !in sc.attributes;
      assert DataSets.UnknownJoin(sc, sets, i, x);
    }
  }

  // ---- which statements name a column twice

  // attributes a and b have the same name
  predicate SameName(sc: Cache, a: Id, b: Id) {
    a in sc.attributes && b in sc.attributes && sc.attributes[a].name == sc.attributes[b].name
  }

  // one more column up to k than up to j, if attribute j has one
  lemma {:induction false} ColumnsGrow(sc: Cache, attributes: seq<DataSets.SetAttribute>, j: nat, k: nat)
    requires j <= k <= |attributes|
    ensures Count(sc, attributes[..j], false) <= Count(sc, attributes[..k], false)
    ensures j < k && IsColumn(sc, attributes[j]) ==>
              Count(sc, attributes[..j], false) < Count(sc, attributes[..k], false)
    decreases k
  {
    if j < k {
      ColumnsGrow(sc, attributes, j, k - 1);
      assert attributes[..k][..k - 1] == attributes[..k - 1];
    }
  }

  // every column comes from an attribute
  lemma {:induction false} ColumnComesFrom(sc: Cache, attributes: seq<DataSets.SetAttribute>, p: nat) returns (k: nat)
    requires p < |DataSets.OwnColumns(sc, attributes)|
    ensures k < |attributes| && IsColumn(sc, attributes[k]) && Count(sc, attributes[..k], false) == p
    ensures DataSets.OwnColumns(sc, attributes)[p].0 == attributes[k].attributeId
  {
    var n := |attributes| - 1;
    ColumnsAreTheValues(sc, attributes[..n]);
    if p < |DataSets.OwnColumns(sc, attributes[..n])| {
      k := ColumnComesFrom(sc, attributes[..n], p);
      assert attributes[..n][..k] == attributes[..k];
    } else {
      k := n;
    }
  }

  // two attributes for columns of the same name
  ghost predicate GivenTwice(sc: Cache, attributes: seq<DataSets.SetAttribute>) {
    exists j, k ::
      0 <= j < k < |attributes| && IsColumn(sc, attributes[j]) && IsColumn(sc, attributes[k]) &&
      SameName(sc, attributes[j].attributeId, attributes[k].attributeId)
  }

  lemma OwnColumnsDistinct(sc: Cache, attributes: seq<DataSets.SetAttribute>)
    ensures DataSets.DistinctColumns(sc, DataSets.OwnColumns(sc, attributes), []) <==> !GivenTwice(sc, attributes)
  {
    var columns := DataSets.OwnColumns(sc, attributes);
    ColumnsAreTheValues(sc, attributes);
    if j, k :| 0 <= j < k < |attributes| && IsColumn(sc, attributes[j]) && IsColumn(sc, attributes[k]) &&
               SameName(sc, attributes[j].attributeId, attributes[k].attributeId) {
      ColumnsGrow(sc, attributes, j, k);
      var p, q := Count(sc, attributes[..j], false), Count(sc, attributes[..k], false);
      assert DataSets.ColumnName(sc, columns[p].0) == DataSets.ColumnName(sc, columns[q].0);
    }
    if p, q :| 0 <= p < q < |columns| &&
               DataSets.ColumnName(sc, columns[p].0) == DataSets.ColumnName(sc, columns[q].0) {
      var j := ColumnComesFrom(sc, attributes, p);
      var k := ColumnComesFrom(sc, attributes, q);
      if k < j {
        ColumnsGrow(sc, attributes, k, j);
      }
      assert SameName(sc, attributes[j].attributeId, attributes[k].attributeId);
    }
  }

  lemma ColumnIsGiven(sc: Cache, s: DataSets.DataSet, id: Id)
    requires id in sc.attributes
    ensures DataSets.GivesColumn(sc, s, id) <==>
            exists k :: 0 <= k < |s.attributes| && IsColumn(sc, s.attributes[k]) &&
                        SameName(sc, s.attributes[k].attributeId, id)
  {
    var columns := DataSets.OwnColumns(sc, s.attributes);
    ColumnsAreTheValues(sc, s.attributes);
    if p :| 0 <= p < |columns| && DataSets.ColumnName(sc, columns[p].0) == DataSets.ColumnName(sc, id) {
      var k := ColumnComesFrom(sc, s.attributes, p);
      assert SameName(sc, s.attributes[k].attributeId, id);
    }
    if k :| 0 <= k < |s.attributes| && IsColumn(sc, s.attributes[k]) && SameName(sc, s.attributes[k].attributeId, id) {
      assert DataSets.ColumnName(sc, columns[Count(sc, s.attributes[..k], false)].0) == DataSets.ColumnName(sc, id);
    }
  }

  // The statement for a record names a column twice if and only if two attributes for columns of one name are given,
  // or, for a new record, such an attribute and a join, or two joins, fill in columns of one name.
  lemma TwiceIffSameName(sc: Cache, sets: DataSets.Request, i: int)
    requires DataSets.SourcesAreLower(sets) && i in sets
    ensures var attributes := sets[i].attributes;
            DataSets.NamesColumnTwice(sc, sets, i) <==>
            || GivenTwice(sc, attributes)
            || (sets[i].recordId == 0 && exists x, k ::
                  x in sets && DataSets.IsLink(sc, sets, i, x) && 0 <= k < |attributes| &&
                  IsColumn(sc, attributes[k]) &&
                  SameName(sc, attributes[k].attributeId, DataSets.LinkAttribute(sets, i, x)))
            || (sets[i].recordId == 0 && exists x, y ::
                  x in sets && y in sets && x != y && DataSets.IsLink(sc, sets, i, x) &&
                  DataSets.IsLink(sc, sets, i, y) &&
                  SameName(sc, DataSets.LinkAttribute(sets, i, x), DataSets.LinkAttribute(sets, i, y)))
  {
    OwnColumnsDistinct(sc, sets[i].attributes);
    forall x | x in sets && DataSets.IsLink(sc, sets, i, x)
      ensures DataSets.LinkAttribute(sets, i, x) in sc.attributes
      ensures DataSets.GivesColumn(sc, sets[i], DataSets.LinkAttribute(sets, i, x)) <==>
              exists k :: 0 <= k < |sets[i].attributes| && IsColumn(sc, sets[i].attributes[k]) &&
                          SameName(sc, sets[i].attributes[k].attributeId, DataSets.LinkAttribute(sets, i, x))
    {
      LinkIsKnown(sc, sets, i, x);
      ColumnIsGiven(sc, sets[i], DataSets.LinkAttribute(sets, i, x));
    }
    forall x, y | x in sets && y in sets
      ensures DataSets.SameLinkColumn(sc, sets, i, x, y) <==>
              && x != y && DataSets.IsLink(sc, sets, i, x) && DataSets.IsLink(sc, sets, i, y)
              && SameName(sc, DataSets.LinkAttribute(sets, i, x), DataSets.LinkAttribute(sets, i, y))
    {
    }
  }

  lemma LinkIsKnown(sc: Cache, sets: DataSets.Request, i: int, x: int)
    requires DataSets.SourcesAreLower(sets) && i in sets && x in sets && DataSets.IsLink(sc, sets, i, x)
    ensures DataSets.LinkAttribute(sets, i, x) in sc.attributes
  {
  }
}
