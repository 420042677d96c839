/** What a complete write of a data SET request amounts to, whatever the order in which the recursion
    and the map iteration of the program went through it. */
module DataSetsProperties {
  import opened Wrappers
  import opened DataRequest
  import opened SqlTree
  import opened SchemaCache
  import opened DataSets

  // Every index gets exactly one statement if it is new or has values, and otherwise none; it is an
  // insert exactly for a new record.
  lemma EachIndexWrittenOnce(sc: Cache, sets: Request, log: seq<Write>)
    requires Complete(sc, sets, log)
    ensures forall j, k :: 0 <= j < k < |log| ==> log[j].index != log[k].index
    ensures forall i :: i in sets ==> (HasEntry(log, i) <==> NeedsWrite(sc, sets[i]))
    ensures forall k :: 0 <= k < |log| ==>
              log[k].index in sets && (log[k].Inserted? <==> sets[log[k].index].recordId == 0)
  {
    forall j, k | 0 <= j < k < |log|
      ensures log[j].index != log[k].index
    {
      assert EntryRight(sc, sets, log[..k], log[k]);
      assert log[..k][j] == log[j];
    }
    forall k | 0 <= k < |log|
      ensures log[k].index in sets && NeedsWrite(sc, sets[log[k].index]) &&
              (log[k].Inserted? <==> sets[log[k].index].recordId == 0)
    {
      assert EntryRight(sc, sets, log[..k], log[k]);
    }
  }

  function Inserts(log: seq<Write>): nat {
    if log == [] then 0
    else Inserts(log[..|log| - 1]) + if log[|log| - 1].Inserted? then 1 else 0
  }

  function InsertedIndexes(log: seq<Write>): set<int> {
    if log == [] then {}
    else
      var n := |log| - 1;
      InsertedIndexes(log[..n]) + if log[n].Inserted? then {log[n].index} else {}
  }

  lemma {:induction false} InsertedIndexesHave(log: seq<Write>, i: int)
    ensures i in InsertedIndexes(log) <==> exists k :: 0 <= k < |log| && log[k].Inserted? && log[k].index == i
  {
    if log != [] {
      var n := |log| - 1;
      InsertedIndexesHave(log[..n], i);
      assert forall k :: 0 <= k < n ==> log[..n][k] == log[k];
    }
  }

  lemma {:induction false} InsertsCountIndexes(log: seq<Write>)
    requires forall j, k :: 0 <= j < k < |log| ==> log[j].index != log[k].index
    ensures Inserts(log) == |InsertedIndexes(log)|
  {
    if log != [] {
      var n := |log| - 1;
      InsertsCountIndexes(log[..n]);
      InsertedIndexesHave(log[..n], log[n].index);
    }
  }

  // The number of new rows is the number of data sets without a record.
  lemma NewRowsAreNewDataSets(sc: Cache, sets: Request, log: seq<Write>)
    requires Complete(sc, sets, log)
    ensures Inserts(log) == |set i | i in sets && sets[i].recordId == 0|
  {
    EachIndexWrittenOnce(sc, sets, log);
    InsertsCountIndexes(log);
    forall i
      ensures i in InsertedIndexes(log) <==> i in sets && sets[i].recordId == 0
    {
      InsertedIndexesHave(log, i);
      if i in sets && sets[i].recordId == 0 {
        var k :| 0 <= k < |log| && log[k].index == i;
        assert log[k].Inserted?;
      }
    }
    assert InsertedIndexes(log) == set i | i in sets && sets[i].recordId == 0;
  }

  lemma {:induction false} RecordStays(sc: Cache, sets: Request, log: seq<Write>, k: nat, i: int)
    requires LogRight(sc, sets, log) && k <= |log| && i in sets
    requires RecordOf(sets, log[..k], i) != 0
    ensures RecordOf(sets, log, i) == RecordOf(sets, log[..k], i)
    decreases |log|
  {
    if k == |log| {
      assert log[..k] == log;
    } else {
      var n := |log| - 1;
      assert log[..n][..k] == log[..k];
      forall j | 0 <= j < n
        ensures EntryRight(sc, sets, log[..n][..j], log[..n][j])
      {
        assert log[..n][..j] == log[..j];
      }
      RecordStays(sc, sets, log[..n], k, i);
      assert EntryRight(sc, sets, log[..n], log[n]);
      if sets[i].recordId == 0 && log[n].index == i {
        InsertedMeansEntry(log[..n], i);
      }
    }
  }

  lemma {:induction false} InsertedMeansEntry(log: seq<Write>, i: int)
    requires InsertedId(log, i) != 0
    ensures HasEntry(log, i)
  {
    var n := |log| - 1;
    if log[n].Inserted? && log[n].index == i {
      assert log[n].index == i;
    } else {
      InsertedMeansEntry(log[..n], i);
      var k :| 0 <= k < n && log[..n][k].index == i;
      assert log[k].index == i;
    }
  }

  // the record of i was inserted, with the record of x in a column, which existed before
  ghost predicate InsertedWith(sets: Request, log: seq<Write>, i: int, attributeId: Id, x: int)
    requires x in sets
  {
    exists k :: 0 <= k < |log| && InsertAt(sets, log, k, i, attributeId, x)
  }

  ghost predicate InsertAt(sets: Request, log: seq<Write>, k: nat, i: int, attributeId: Id, x: int)
    requires k < |log| && x in sets
  {
    && log[k].Inserted? && log[k].index == i
    && RecordOf(sets, log[..k], x) == RecordOf(sets, log, x) != 0
    && Link(attributeId, x, RecordOf(sets, log, x)) in log[k].links
  }

  lemma LinkIsInserted(sc: Cache, sets: Request, log: seq<Write>, i: int, x: int)
    requires Complete(sc, sets, log)
    requires i in sets && x in sets && sets[i].recordId == 0 && IsLink(sc, sets, i, x)
    ensures InsertedWith(sets, log, i, LinkAttribute(sets, i, x), x)
  {
    var k :| 0 <= k < |log| && log[k].index == i;
    assert EntryRight(sc, sets, log[..k], log[k]);
    assert Mentions(log[k].links, x);
    var j :| 0 <= j < |log[k].links| && log[k].links[j].partner == x;
    assert LinkRight(sc, sets, log[..k], i, log[k].links[j]);
    RecordStays(sc, sets, log, k, x);
    assert log[k].links[j] in log[k].links;
    assert InsertAt(sets, log, k, i, LinkAttribute(sets, i, x), x);
  }

  // the first value given for an attribute, if there is any, is not nil
  ghost predicate GivesValue(attributes: seq<SetAttribute>, id: Id) {
    exists k ::
      && 0 <= k < |attributes| && attributes[k].attributeId == id && attributes[k].value != Single(Nil)
      && forall m :: 0 <= m < k ==> attributes[m].attributeId != id
  }

  lemma {:induction false} SuppliedIsGiven(attributes: seq<SetAttribute>, id: Id)
    ensures Supplied(attributes, id) <==> GivesValue(attributes, id)
  {
    if attributes != [] {
      SuppliedIsGiven(attributes[1..], id);
      if attributes[0].attributeId != id {
        GivenBehind(attributes, id);
      }
    }
  }

  lemma GivenBehind(attributes: seq<SetAttribute>, id: Id)
    requires attributes != [] && attributes[0].attributeId != id
    ensures GivesValue(attributes, id) <==> GivesValue(attributes[1..], id)
  {
    var rest := attributes[1..];
    if GivesValue(rest, id) {
      var k :| 0 <= k < |rest| && rest[k].attributeId == id && rest[k].value != Single(Nil) &&
               forall m :: 0 <= m < k ==> rest[m].attributeId != id;
      assert attributes[k + 1] == rest[k];
      assert forall m :: 1 <= m < k + 1 ==> attributes[m] == rest[m - 1];
    }
    if GivesValue(attributes, id) {
      var k :| 0 <= k < |attributes| && attributes[k].attributeId == id && attributes[k].value != Single(Nil) &&
               forall m :: 0 <= m < k ==> attributes[m].attributeId != id;
      assert rest[k - 1] == attributes[k];
      assert forall m :: 0 <= m < k - 1 ==> rest[m] == attributes[m + 1];
    }
  }

  // the attribute belongs to the relation
  predicate BelongsTo(sc: Cache, id: Id, relationId: Id) {
    id in sc.attributes && sc.attributes[id].relationId == relationId
  }

  lemma InsertedMeansLink(sc: Cache, sets: Request, log: seq<Write>, i: int, id: Id, x: int)
    requires Complete(sc, sets, log) && x in sets && InsertedWith(sets, log, i, id, x)
    ensures i in sets && sets[i].recordId == 0 && IsLink(sc, sets, i, x) && id == LinkAttribute(sets, i, x)
  {
    var k :| 0 <= k < |log| && InsertAt(sets, log, k, i, id, x);
    assert EntryRight(sc, sets, log[..k], log[k]);
    var j :| 0 <= j < |log[k].links| && log[k].links[j] == Link(id, x, RecordOf(sets, log, x));
    assert LinkRight(sc, sets, log[..k], i, log[k].links[j]);
  }

  // For a pair of joined indexes: a record is inserted with the existing record of its partner if and only if
  // it is new, the attribute of the join belongs to its relation, and no value was given for it (on the side
  // that is joined from) or the relations differ (on the side that is joined).
  lemma JoinedRecordsAreLinked(sc: Cache, sets: Request, log: seq<Write>, i: int)
    requires SourcesAreLower(sets) && Complete(sc, sets, log)
    requires i in sets && sets[i].indexFrom in sets && sets[i].indexFrom != i
    ensures var source, id := sets[i].indexFrom, sets[i].attributeId;
            && (InsertedWith(sets, log, source, id, i) <==>
                BelongsTo(sc, id, sets[source].relationId) && sets[source].recordId == 0 &&
                    !GivesValue(sets[source].attributes, id))
            && (InsertedWith(sets, log, i, id, source) <==>
                BelongsTo(sc, id, sets[i].relationId) && sets[i].recordId == 0 &&
                    sets[i].relationId != sets[source].relationId)
  {
    var source, id := sets[i].indexFrom, sets[i].attributeId;
    SuppliedIsGiven(sets[source].attributes, id);
    if BelongsTo(sc, id, sets[source].relationId) && sets[source].recordId == 0 &&
        !GivesValue(sets[source].attributes, id) {
      LinkIsInserted(sc, sets, log, source, i);
    }
    if BelongsTo(sc, id, sets[i].relationId) && sets[i].recordId == 0 && sets[i].relationId != sets[source].relationId {
      LinkIsInserted(sc, sets, log, i, source);
    }
    if InsertedWith(sets, log, source, id, i) {
      InsertedMeansLink(sc, sets, log, source, id, i);
    }
    if InsertedWith(sets, log, i, id, source) {
      InsertedMeansLink(sc, sets, log, i, id, source);
    }
  }

  // No reference but these: whatever an insert refers to is a partner of a join, by the join's attribute.
  lemma LinksComeFromJoins(sc: Cache, sets: Request, log: seq<Write>, k: nat, l: Link)
    requires Complete(sc, sets, log) && k < |log| && log[k].Inserted? && l in log[k].links
    ensures l.partner in sets && l.recordId == RecordOf(sets, log, l.partner)
    ensures (sets[l.partner].indexFrom == log[k].index && l.attributeId == sets[l.partner].attributeId)
         || (sets[log[k].index].indexFrom == l.partner && l.attributeId == sets[log[k].index].attributeId)
  {
    assert EntryRight(sc, sets, log[..k], log[k]);
    var j :| 0 <= j < |log[k].links| && log[k].links[j] == l;
    assert LinkRight(sc, sets, log[..k], log[k].index, log[k].links[j]);
    RecordStays(sc, sets, log, k, l.partner);
  }

  // the clauses call, as a blacklist or as a whitelist, the function with this ID, if there is one, and no other
  ghost predicate Calls(sc: Cache, ts: seq<Token>, blacklist: bool, id: Option<Id>) {
    forall m, f :: Policy(0, 0, blacklist, m, f) in ts <==> Names(sc, id, m, f)
  }

  // Every update is of the record that the request names, and as the policies of its relation say: under the
  // blacklist and the whitelist function of the first policy for updates that fits, under none without one.
  lemma UpdatesObeyPolicy(sc: Cache, sets: Request, log: seq<Write>, n: nat, relation: Relation)
    requires Complete(sc, sets, log) && n < |log| && log[n].Updated? && log[n].index in sets
    requires (sets[log[n].index].relationId, relation) in sc.relations.Items
    ensures log[n].recordId == sets[log[n].index].recordId
    ensures sc.access.Some? ==>
              forall k: nat :: Decides(sc.access.value, relation.policies, "update", k) ==>
                && Calls(sc, log[n].policy, true, relation.policies[k].excl)
                && Calls(sc, log[n].policy, false, relation.policies[k].incl)
    ensures (sc.access.Some? ==> forall p :: p in relation.policies ==> !Fits(sc.access.value, p, "update")) ==>
              log[n].policy == []
  {
    assert EntryRight(sc, sets, log[..n], log[n]);
    assert KnownAction("update");
    if sc.access.Some? {
      forall k: nat | Decides(sc.access.value, relation.policies, "update", k)
        ensures Calls(sc, log[n].policy, true, relation.policies[k].excl)
        ensures Calls(sc, log[n].policy, false, relation.policies[k].incl)
      {
        FilterOfDecidingPolicy(sc, "update", 0, 0, relation.policies, k);
      }
    }
    if sc.access.Some? ==> forall p :: p in relation.policies ==> !Fits(sc.access.value, p, "update") {
      NoFilterWithoutFit(sc, "update", 0, 0, relation.policies);
    }
  }

  // A request that gives the reference of a join as nil, on the side that the join fills in: new record 0 of
  // relation 1 holds the reference to new record 1 of relation 2. It is authorised and names only what the
  // schema knows, but its column twice.
  lemma NilReferenceIsRejected() returns (sc: Cache, sets: Request)
    ensures SourcesAreLower(sets) && sets.Keys == {0, 1}
    ensures forall i :: i in sets ==> Authorized(sc, {}, sets[i]) && !Unwritable(sc, sets, i)
    ensures sets[0].attributes == [SetAttribute(3, None, false, Single(Nil))] && sets[1].attributes == []
    ensures NamesColumnTwice(sc, sets, 0)
  {
    sc := ExampleCache();
    var a := SetAttribute(3, None, false, Single(Nil));
    sets := map[0 := DataSet(1, NIL, -1, 0, [a]), 1 := DataSet(2, 3, 0, 0, [])];
    NilIsNamedTwice(sc, sets, 0, 1, a);
    OneMoreValue(sc, [], a);
    assert [] + [a] == [a];
  }

  lemma NilIsNamedTwice(sc: Cache, sets: Request, i: int, x: int, a: SetAttribute)
    requires i in sets && x in sets && HoldsForChild(sc, sets, i, x) && sets[i].recordId == 0
    requires sets[i].attributes == [a] && a == SetAttribute(sets[x].attributeId, None, false, Single(Nil))
    requires !sc.attributes[a.attributeId].content.Files?
    ensures NamesColumnTwice(sc, sets, i)
  {
    OneMoreValue(sc, [], a);
    assert [] + [a] == [a];
    assert !Supplied(sets[i].attributes, a.attributeId);
    assert IsLink(sc, sets, i, x) && LinkAttribute(sets, i, x) == a.attributeId;
    assert OwnColumns(sc, sets[i].attributes)[0].0 == a.attributeId && GivesColumn(sc, sets[i], a.attributeId);
  }

  // Two records joined from one new record by the same attribute of its relation, and no value given at all.
  lemma SharedReferenceIsRejected() returns (sc: Cache, sets: Request)
    ensures SourcesAreLower(sets) && sets.Keys == {0, 1, 2}
    ensures forall i :: i in sets ==>
              Authorized(sc, {}, sets[i]) && !Unwritable(sc, sets, i) && sets[i].attributes == []
    ensures NamesColumnTwice(sc, sets, 0)
  {
    sc := ExampleCache();
    sets := map[0 := DataSet(1, NIL, -1, 0, []), 1 := DataSet(2, 3, 0, 0, []), 2 := DataSet(2, 3, 0, 0, [])];
    assert IsLink(sc, sets, 0, 1) && IsLink(sc, sets, 0, 2);
    assert SameLinkColumn(sc, sets, 0, 1, 2);
  }

  lemma OneMoreValue(sc: Cache, attributes: seq<SetAttribute>, a: SetAttribute)
    requires a.attributeId in sc.attributes && !a.outsideIn && !sc.attributes[a.attributeId].content.Files?
    ensures OwnColumns(sc, attributes + [a]) == OwnColumns(sc, attributes) + [(a.attributeId, a.value)]
    ensures ReferencesIn(sc, attributes + [a]) == ReferencesIn(sc, attributes)
  {
    assert (attributes + [a])[..|attributes|] == attributes;
  }

  // Two attributes that share nothing but their name: whether an attribute is one of the relation is not looked at.
  lemma SameNameIsRejected() returns (sc: Cache, sets: Request)
    ensures SourcesAreLower(sets) && sets.Keys == {0}
    ensures Authorized(sc, {}, sets[0]) && !Unwritable(sc, sets, 0)
    ensures |sets[0].attributes| == 2 && sets[0].attributes[0].attributeId != sets[0].attributes[1].attributeId
    ensures NamesColumnTwice(sc, sets, 0)
  {
    sc := ExampleCache();
    var a, b := SetAttribute(3, None, false, Single(Number(7))), SetAttribute(5, None, false, Single(Number(8)));
    sets := map[0 := DataSet(1, NIL, -1, 0, [a, b])];
    TwoValues(sc, a, b);
    assert ColumnName(sc, 3) == ColumnName(sc, 5);
    TwoColumns(sc, OwnColumns(sc, [a, b]), []);
  }

  lemma TwoValues(sc: Cache, a: SetAttribute, b: SetAttribute)
    requires a.attributeId in sc.attributes && !a.outsideIn && !sc.attributes[a.attributeId].content.Files?
    requires b.attributeId in sc.attributes && !b.outsideIn && !sc.attributes[b.attributeId].content.Files?
    ensures OwnColumns(sc, [a, b]) == [(a.attributeId, a.value), (b.attributeId, b.value)]
    ensures ReferencesIn(sc, [a, b]) == []
  {
    OneMoreValue(sc, [], a);
    OneMoreValue(sc, [a], b);
    assert [] + [a] == [a] && [a] + [b] == [a, b];
  }

  lemma TwoColumns(sc: Cache, columns: seq<Column>, links: seq<Link>)
    requires |columns| == 2 && ColumnName(sc, columns[0].0) == ColumnName(sc, columns[1].0)
    ensures !DistinctColumns(sc, columns, links)
  {
  }

  // attributes 3 and 5 of relations 1 and 2 have the same name, and 3 refers to relation 2; the login may write both
  function ExampleCache(): Cache {
    Cache(map[4 := "m"], map[1 := Relation(4, "a", []), 2 := Relation(4, "b", [])],
          map[3 := Attribute(1, "b", Relationship, Some(2)), 5 := Attribute(2, "b", OtherContent, None)],
          map[], {}, Some(Access({}, map[], map[1 := 2, 2 := 2])))
  }

  // A data set is authorised if and only if its relation is known, the login may create records in it if a record
  // is to be created, it may write every attribute, and no value of a protected preset record is touched.
  lemma AuthorizedIffGrantedToWrite(sc: Cache, guarded: Protection, s: DataSet)
    ensures Authorized(sc, guarded, s) <==>
            && s.relationId in sc.relations
            && (s.recordId != 0 || exists level :: MayRelation(sc, s.relationId, level) && level >= 2)
            && forall k :: 0 <= k < |s.attributes| ==> MayWrite(sc, guarded, s, s.attributes[k].attributeId)
  {
    assert AuthorizedRelation(sc, s.relationId, 2) <==>
           exists level :: MayRelation(sc, s.relationId, level) && level >= 2 by {
      if AuthorizedRelation(sc, s.relationId, 2) {
        assert MayRelation(sc, s.relationId, sc.access.value.relation[s.relationId]);
      }
    }
    forall k | 0 <= k < |s.attributes|
      ensures MayWrite(sc, guarded, s, s.attributes[k].attributeId) <==>
              AuthorizedAttribute(sc, s.attributes[k].attributeId, 2) &&
                  (s.relationId, s.recordId, s.attributes[k].attributeId) !in guarded
    {
      AuthorizedIffGranted(sc, s.attributes[k].attributeId, 2);
      assert s.attributes[k] in s.attributes;
    }
  }

  predicate MayRelation(sc: Cache, relationId: Id, level: int) {
    sc.access.Some? && (relationId, level) in sc.access.value.relation.Items
  }

  ghost predicate MayWrite(sc: Cache, guarded: Protection, s: DataSet, id: Id) {
    (exists level :: Granted(sc, id, level) && level >= 2) && (s.relationId, s.recordId, id) !in guarded
  }
}
