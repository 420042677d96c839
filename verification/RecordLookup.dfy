/** Finding the records an import row stands for: the joined relations are looked up by their unique
    indexes, which may need records that are found by other lookups (data/data_import/data_import.go). */
module RecordLookup {
  import opened Wrappers
  import opened DataRequest
  import opened SchemaCache

  datatype QueryJoin = QueryJoin(relationId: Id, index: int, indexFrom: int)

  type Column = (Id, Value)

  // an import row: its joins, the values of each joined relation, and the attributes of the unique index
  // that identifies a record of a join, if one is configured
  datatype Row = Row(joins: seq<QueryJoin>, values: map<int, seq<Column>>, uniqueIndexes: map<int, seq<Id>>)

  // the record that a relation holds for the values of a unique index
  type Table = (Id, seq<Column>) -> Option<int>

  // ---- the configured lookups

  datatype QueryLookup = QueryLookup(pgIndexId: Id, index: int)

  datatype PgIndex = PgIndex(id: Id, attributeIds: seq<Id>)

  datatype Lookups = Lookups(joins: seq<QueryJoin>, lookups: seq<QueryLookup>, indexes: map<Id, seq<PgIndex>>)

  // a join, a lookup and a unique index of the join's relation, by their positions
  datatype Place = Place(join: nat, lookup: nat, pgIndex: nat)

  predicate Before(p: Place, q: Place) {
    p.join < q.join || (p.join == q.join && (p.lookup < q.lookup || (p.lookup == q.lookup && p.pgIndex < q.pgIndex)))
  }

  // the lookup names this unique index for the join, which is joined as index
  predicate Configured(c: Lookups, p: Place, index: int) {
    && p.join < |c.joins| && p.lookup < |c.lookups|
    && c.joins[p.join].index == c.lookups[p.lookup].index == index
    && c.joins[p.join].relationId in c.indexes
    && p.pgIndex < |c.indexes[c.joins[p.join].relationId]|
    && c.indexes[c.joins[p.join].relationId][p.pgIndex].id == c.lookups[p.lookup].pgIndexId
  }

  function AttributesAt(c: Lookups, p: Place): seq<Id>
    requires p.join < |c.joins| && Configured(c, p, c.joins[p.join].index)
  {
    c.indexes[c.joins[p.join].relationId][p.pgIndex].attributeIds
  }

  // r holds, of the places before end, the attributes at the last one configured for each index
  ghost predicate LastBefore(c: Lookups, r: map<int, seq<Id>>, last: map<int, Place>, end: Place) {
    && r.Keys == last.Keys
    && (forall i :: i in last ==> Configured(c, last[i], i) && Before(last[i], end) && r[i] == AttributesAt(c, last[i]))
    && (forall p, i :: Configured(c, p, i) && Before(p, end) ==> i in last && !Before(last[i], p))
  }

  ghost predicate IsLast(c: Lookups, p: Place, index: int) {
    Configured(c, p, index) && forall q :: Configured(c, q, index) ==> !Before(p, q)
  }

  // what is resolved of these lookups
  ghost predicate Resolves(c: Lookups, r: map<int, seq<Id>>) {
    && (forall p, i :: Configured(c, p, i) ==> i in r)
    && (forall i :: i in r ==> exists p :: IsLast(c, p, i))
    && forall p, i :: IsLast(c, p, i) ==> i in r && r[i] == AttributesAt(c, p)
  }

  lemma AllResolved(c: Lookups, r: map<int, seq<Id>>, last: map<int, Place>)
    requires LastBefore(c, r, last, Place(|c.joins|, 0, 0))
    ensures Resolves(c, r)
  {
    forall i | i in r
      ensures IsLast(c, last[i], i)
    {
    }
  }

  // Every join with a configured lookup gets the attributes of the last index that is configured for it, and
  // no other join gets any.
  method ResolveQueryLookups(joins: seq<QueryJoin>, lookups: seq<QueryLookup>, indexes: map<Id, seq<PgIndex>>)
    returns (r: map<int, seq<Id>>)
    ensures Resolves(Lookups(joins, lookups, indexes), r)
  {
    ghost var c := Lookups(joins, lookups, indexes);
    r := map[];
    ghost var last := map[];
    for a := 0 to |joins|
      invariant LastBefore(c, r, last, Place(a, 0, 0))
    {
      for b := 0 to |lookups|
        invariant LastBefore(c, r, last, Place(a, b, 0))
      {
        if lookups[b].index != joins[a].index {
          continue;
        }
        if joins[a].relationId !in indexes {
          continue;
        }
        r, last := ResolveLookup(joins[a], lookups[b], indexes[joins[a].relationId], r, c, last, a, b);
      }
    }
    AllResolved(c, r, last);
  }

  // Where each join, lookup and unique index is there once, a join gets the attributes of the index of its relation
  // that the lookup for the join names, if there is one.
  lemma NamedIndexIsUsed(c: Lookups, r: map<int, seq<Id>>, a: nat)
    requires Resolves(c, r) && a < |c.joins| && DistinctIndexes(c.joins)
    requires forall b, d :: 0 <= b < d < |c.lookups| ==> c.lookups[b].index != c.lookups[d].index
    requires c.joins[a].relationId in c.indexes ==>
               forall k, m :: 0 <= k < m < |c.indexes[c.joins[a].relationId]| ==>
                 c.indexes[c.joins[a].relationId][k].id != c.indexes[c.joins[a].relationId][m].id
    ensures var i := c.joins[a].index;
            var pgIndexes := if c.joins[a].relationId in c.indexes then c.indexes[c.joins[a].relationId] else [];
            && (i in r <==> exists pgIndex :: pgIndex in pgIndexes && QueryLookup(pgIndex.id, i) in c.lookups)
            && forall pgIndex :: pgIndex in pgIndexes && QueryLookup(pgIndex.id, i) in c.lookups ==>
                 i in r && r[i] == pgIndex.attributeIds
  {
    var i := c.joins[a].index;
    var pgIndexes := if c.joins[a].relationId in c.indexes then c.indexes[c.joins[a].relationId] else [];
    forall pgIndex | pgIndex in pgIndexes && QueryLookup(pgIndex.id, i) in c.lookups
      ensures i in r && r[i] == pgIndex.attributeIds
    {
      var k :| 0 <= k < |pgIndexes| && pgIndexes[k] == pgIndex;
      var b :| 0 <= b < |c.lookups| && c.lookups[b] == QueryLookup(pgIndex.id, i);
      assert Configured(c, Place(a, b, k), i);
      assert forall q :: Configured(c, q, i) ==> q == Place(a, b, k);
      assert IsLast(c, Place(a, b, k), i);
    }
    if i in r {
      var p :| IsLast(c, p, i);
      assert p.join == a;
      assert pgIndexes[p.pgIndex] in pgIndexes && c.lookups[p.lookup] in c.lookups;
      assert c.lookups[p.lookup] == QueryLookup(pgIndexes[p.pgIndex].id, i);
    }
  }

  method ResolveLookup(join: QueryJoin, lookup: QueryLookup, pgIndexes: seq<PgIndex>, found: map<int, seq<Id>>,
                       ghost c: Lookups, ghost lastFound: map<int, Place>, ghost a: nat, ghost b: nat)
    returns (r: map<int, seq<Id>>, ghost last: map<int, Place>)
    requires a < |c.joins| && c.joins[a] == join && b < |c.lookups| && c.lookups[b] == lookup &&
             lookup.index == join.index
    requires join.relationId in c.indexes && c.indexes[join.relationId] == pgIndexes
    requires LastBefore(c, found, lastFound, Place(a, b, 0))
    ensures LastBefore(c, r, last, Place(a, b + 1, 0))
  {
    r, last := found, lastFound;
    for k := 0 to |pgIndexes|
      invariant LastBefore(c, r, last, Place(a, b, k))
    {
      if lookup.pgIndexId != pgIndexes[k].id {
        continue;
      }
      assert Configured(c, Place(a, b, k), join.index);
      r := r[join.index := pgIndexes[k].attributeIds];
      last := last[join.index := Place(a, b, k)];
    }
  }

  // ---- what a lookup needs

  function FirstValue(columns: seq<Column>, id: Id): Option<Value> {
    if columns == [] then None
    else if columns[0].0 == id then Some(columns[0].1)
    else FirstValue(columns[1..], id)
  }

  predicate IsPartner(o: QueryJoin, j: QueryJoin, relationshipId: Option<Id>) {
    relationshipId == Some(o.relationId) && (o.index == j.indexFrom || o.indexFrom == j.index)
  }

  function FirstPartner(joins: seq<QueryJoin>, j: QueryJoin, relationshipId: Option<Id>): Option<int> {
    if joins == [] then None
    else if IsPartner(joins[0], j, relationshipId) then Some(joins[0].index)
    else FirstPartner(joins[1..], j, relationshipId)
  }

  predicate IsRelationship(sc: Cache, id: Id) {
    id in sc.attributes && (sc.attributes[id].content.Relationship? || sc.attributes[id].content.Relationship11?)
  }

  predicate HasRecord(records: map<int, int>, index: int) {
    index in records && records[index] != 0
  }

  // the value of an index attribute: from the row, or the record that was found for a partner
  function Part(sc: Cache, row: Row, records: map<int, int>, j: QueryJoin, id: Id): Option<Value> {
    if !IsRelationship(sc, id) then
      if j.index in row.values then FirstValue(row.values[j.index], if id in sc.attributes then id else NIL) else None
    else
      match FirstPartner(row.joins, j, sc.attributes[id].relationshipId)
      case None => None
      case Some(i) => if HasRecord(records, i) then Some(Number(records[i])) else None
  }

  function Key(sc: Cache, row: Row, records: map<int, int>, j: QueryJoin, ids: seq<Id>): Option<seq<Column>> {
    if ids == [] then Some([])
    else
      var n := |ids| - 1;
      var key, part := Key(sc, row, records, j, ids[..n]), Part(sc, row, records, j, ids[n]);
      if key.Some? && part.Some? then Some(key.value + [(ids[n], part.value)]) else None
  }

  // A key is there if and only if all its parts are, and then it names them in the order of the index.
  lemma {:induction false} KeyIsAllParts(sc: Cache, row: Row, records: map<int, int>, j: QueryJoin, ids: seq<Id>)
    ensures Key(sc, row, records, j, ids).Some? <==>
            forall k :: 0 <= k < |ids| ==> Part(sc, row, records, j, ids[k]).Some?
    ensures Key(sc, row, records, j, ids).Some? ==> |Key(sc, row, records, j, ids).value| == |ids|
    ensures Key(sc, row, records, j, ids).Some? ==>
              forall k :: 0 <= k < |ids| ==>
                    Part(sc, row, records, j, ids[k]) == Some(Key(sc, row, records, j, ids).value[k].1)
    ensures Key(sc, row, records, j, ids).Some? ==>
              forall k :: 0 <= k < |ids| ==> Key(sc, row, records, j, ids).value[k].0 == ids[k]
  {
    if ids != [] {
      KeyIsAllParts(sc, row, records, j, ids[..|ids| - 1]);
    }
  }

  // the first of the columns with this attribute
  ghost predicate FirstWith(columns: seq<Column>, id: Id, v: Value) {
    exists k :: 0 <= k < |columns| && columns[k] == (id, v) && forall m :: 0 <= m < k ==> columns[m].0 != id
  }

  // o is the first join of the relation that is joined to j, or that j is joined to
  ghost predicate FirstJoined(joins: seq<QueryJoin>, j: QueryJoin, relationId: Id, o: QueryJoin) {
    exists k ::
      && 0 <= k < |joins| && joins[k] == o && o.relationId == relationId
      && (o.index == j.indexFrom || o.indexFrom == j.index)
      && forall m :: 0 <= m < k && joins[m].relationId == relationId ==>
           joins[m].index != j.indexFrom && joins[m].indexFrom != j.index
  }

  // what the row offers for an attribute of a unique index: its own first value, or the record of the
  // first join of the related relation next to this one
  ghost predicate Offers(sc: Cache, row: Row, records: map<int, int>, j: QueryJoin, id: Id, v: Value) {
    if id in sc.attributes && sc.attributes[id].content in {Relationship, Relationship11} then
      exists o ::
        && sc.attributes[id].relationshipId.Some?
        && FirstJoined(row.joins, j, sc.attributes[id].relationshipId.value, o)
        && o.index in records && records[o.index] != 0 && v == Number(records[o.index])
    else
      j.index in row.values && FirstWith(row.values[j.index], if id in sc.attributes then id else NIL, v)
  }

  lemma {:induction false} FirstValueIsFirst(columns: seq<Column>, id: Id, v: Value)
    ensures FirstValue(columns, id) == Some(v) <==> FirstWith(columns, id, v)
  {
    if columns != [] {
      FirstValueIsFirst(columns[1..], id, v);
      if columns[0].0 == id {
        assert FirstWith(columns, id, columns[0].1);
      } else if FirstWith(columns[1..], id, v) {
        var k :| 0 <= k < |columns| - 1 && columns[1..][k] == (id, v) &&
                 forall m :: 0 <= m < k ==> columns[1..][m].0 != id;
        assert forall m :: 1 <= m < k + 1 ==> columns[m] == columns[1..][m - 1];
        assert columns[k + 1] == (id, v);
      }
    }
  }

  lemma {:induction false} FirstPartnerIsFirst(joins: seq<QueryJoin>, j: QueryJoin, relationId: Id)
    ensures FirstPartner(joins, j, Some(relationId)).Some? ==>
              exists o :: FirstJoined(joins, j, relationId, o)
    ensures forall o :: FirstJoined(joins, j, relationId, o) ==>
              FirstPartner(joins, j, Some(relationId)) == Some(o.index)
  {
    if joins != [] {
      var joined := joins[0].index == j.indexFrom || joins[0].indexFrom == j.index;
      FirstPartnerIsFirst(joins[1..], j, relationId);
      if joins[0].relationId == relationId && joined {
        assert FirstJoined(joins, j, relationId, joins[0]);
      } else {
        forall o
          ensures FirstJoined(joins, j, relationId, o) <==> FirstJoined(joins[1..], j, relationId, o)
        {
          JoinedBehind(joins, j, relationId, o);
        }
      }
    }
  }

  // The first join does not matter to what is joined behind it, unless it is joined itself.
  lemma JoinedBehind(joins: seq<QueryJoin>, j: QueryJoin, relationId: Id, o: QueryJoin)
    requires joins != []
    requires joins[0].relationId == relationId ==> joins[0].index != j.indexFrom && joins[0].indexFrom != j.index
    ensures FirstJoined(joins, j, relationId, o) <==> FirstJoined(joins[1..], j, relationId, o)
  {
    var rest := joins[1..];
    if FirstJoined(rest, j, relationId, o) {
      var k :| && 0 <= k < |rest| && rest[k] == o && o.relationId == relationId
               && (o.index == j.indexFrom || o.indexFrom == j.index)
               && forall m :: 0 <= m < k && rest[m].relationId == relationId ==>
                    rest[m].index != j.indexFrom && rest[m].indexFrom != j.index;
      assert forall m :: 1 <= m < k + 1 ==> joins[m] == rest[m - 1];
      assert joins[k + 1] == o;
    }
    if FirstJoined(joins, j, relationId, o) {
      var k :| && 0 <= k < |joins| && joins[k] == o && o.relationId == relationId
               && (o.index == j.indexFrom || o.indexFrom == j.index)
               && forall m :: 0 <= m < k && joins[m].relationId == relationId ==>
                    joins[m].index != j.indexFrom && joins[m].indexFrom != j.index;
      assert rest[k - 1] == o;
      assert forall m :: 0 <= m < k - 1 ==> rest[m] == joins[m + 1];
    }
  }

  lemma {:induction false} NoPartnerOfNone(joins: seq<QueryJoin>, j: QueryJoin)
    ensures FirstPartner(joins, j, None).None?
  {
    if joins != [] {
      NoPartnerOfNone(joins[1..], j);
    }
  }

  // The part of a key is what the row offers for the attribute, and nothing else is.
  lemma PartIsOffered(sc: Cache, row: Row, records: map<int, int>, j: QueryJoin, id: Id, v: Value)
    ensures Part(sc, row, records, j, id) == Some(v) <==> Offers(sc, row, records, j, id, v)
  {
    if id in sc.attributes && sc.attributes[id].content in {Relationship, Relationship11} {
      var relationshipId := sc.attributes[id].relationshipId;
      if relationshipId.Some? {
        FirstPartnerIsFirst(row.joins, j, relationshipId.value);
      } else {
        NoPartnerOfNone(row.joins, j);
      }
    } else if j.index in row.values {
      FirstValueIsFirst(row.values[j.index], if id in sc.attributes then id else NIL, v);
    }
  }

  // the join has a unique index, and all of its attributes are available
  predicate CanLookUp(sc: Cache, row: Row, records: map<int, int>, j: QueryJoin) {
    j.index in row.uniqueIndexes && Key(sc, row, records, j, row.uniqueIndexes[j.index]).Some?
  }

  // what the lookup gives, 0 for no record
  function Outcome(sc: Cache, row: Row, table: Table, records: map<int, int>, j: QueryJoin): int
    requires CanLookUp(sc, row, records, j)
  {
    var r := table(j.relationId, Key(sc, row, records, j, row.uniqueIndexes[j.index]).value);
    if r.Some? then r.value else 0
  }

  // ---- the least solution

  // s knows the outcome of every lookup that can be done with the records in s
  ghost predicate Closed(sc: Cache, row: Row, table: Table, s: map<int, int>) {
    forall j :: j in row.joins && CanLookUp(sc, row, s, j) ==>
      j.index in s && s[j.index] == Outcome(sc, row, table, s, j)
  }

  // a smaller solution: fewer outcomes, but the same ones
  predicate Below(r: map<int, int>, s: map<int, int>) {
    forall i :: i in r ==> i in s && s[i] == r[i]
  }

  ghost predicate BelowAllClosed(sc: Cache, row: Row, table: Table, r: map<int, int>) {
    forall s | Closed(sc, row, table, s) :: Below(r, s)
  }

  ghost predicate LeastClosed(sc: Cache, row: Row, table: Table, r: map<int, int>) {
    Closed(sc, row, table, r) && BelowAllClosed(sc, row, table, r)
  }

  // There is only one such solution, whatever the order in which it is reached.
  lemma LeastSolutionIsUnique(sc: Cache, row: Row, table: Table, r: map<int, int>, s: map<int, int>)
    requires LeastClosed(sc, row, table, r) && LeastClosed(sc, row, table, s)
    ensures forall i :: (i in r <==> i in s) && (i in r ==> r[i] == s[i])
  {
    assert Below(r, s) && Below(s, r);
  }

  // a value for every attribute of the join's unique index, in its order
  ghost predicate IsFullKey(sc: Cache, row: Row, records: map<int, int>, j: QueryJoin, key: seq<Column>) {
    && j.index in row.uniqueIndexes && |key| == |row.uniqueIndexes[j.index]|
    && forall k :: 0 <= k < |key| ==>
         key[k].0 == row.uniqueIndexes[j.index][k] && Offers(sc, row, records, j, key[k].0, key[k].1)
  }

  lemma FullKeyIsKey(sc: Cache, row: Row, records: map<int, int>, j: QueryJoin, key: seq<Column>)
    requires IsFullKey(sc, row, records, j, key)
    ensures Key(sc, row, records, j, row.uniqueIndexes[j.index]) == Some(key)
  {
    var ids := row.uniqueIndexes[j.index];
    KeyIsAllParts(sc, row, records, j, ids);
    forall k | 0 <= k < |ids|
      ensures Part(sc, row, records, j, ids[k]) == Some(key[k].1)
    {
      PartIsOffered(sc, row, records, j, ids[k], key[k].1);
    }
    assert key == Key(sc, row, records, j, ids).value;
  }

  // Of a closed solution: wherever the row offers a full key, the outcome is the record that the join's own
  // relation holds for that key, or 0 if it holds none.
  lemma FullKeysAreLookedUp(sc: Cache, row: Row, table: Table, records: map<int, int>, j: QueryJoin, key: seq<Column>)
    requires Closed(sc, row, table, records) && j in row.joins && IsFullKey(sc, row, records, j, key)
    ensures j.index in records
    ensures records[j.index] == (match table(j.relationId, key) case Some(id) => id case None => 0)
  {
    FullKeyIsKey(sc, row, records, j, key);
  }

  predicate DistinctIndexes(joins: seq<QueryJoin>) {
    forall a, b :: 0 <= a < b < |joins| ==> joins[a].index != joins[b].index
  }

  // records that were found stay found
  predicate Keeps(r: map<int, int>, s: map<int, int>) {
    forall i :: i in r && HasRecord(r, i) ==> HasRecord(s, i) && s[i] == r[i]
  }

  lemma {:induction false} KeyStays(sc: Cache, row: Row, r: map<int, int>, s: map<int, int>, j: QueryJoin, ids: seq<Id>)
    requires Keeps(r, s) && Key(sc, row, r, j, ids).Some?
    ensures Key(sc, row, s, j, ids) == Key(sc, row, r, j, ids)
  {
    if ids != [] {
      KeyStays(sc, row, r, s, j, ids[..|ids| - 1]);
    }
  }

  // A solution that knows the outcome of one more lookup is still below every closed one.
  lemma AddOutcome(sc: Cache, row: Row, table: Table, r: map<int, int>, j: QueryJoin)
    requires BelowAllClosed(sc, row, table, r)
    requires j in row.joins && CanLookUp(sc, row, r, j)
    ensures BelowAllClosed(sc, row, table, r[j.index := Outcome(sc, row, table, r, j)])
  {
    forall s | Closed(sc, row, table, s)
      ensures Below(r[j.index := Outcome(sc, row, table, r, j)], s)
    {
      assert Below(r, s);
      KeyStays(sc, row, r, s, j, row.uniqueIndexes[j.index]);
    }
  }

  // what was done so far: the outcome of every lookup, in the order of the lookups
  ghost predicate Sound(sc: Cache, row: Row, table: Table, records: map<int, int>, resolved: seq<int>) {
    && (forall a, b :: 0 <= a < b < |resolved| ==> resolved[a] != resolved[b])
    && (forall i :: i in records <==> i in resolved)
    && (forall i :: i in records ==> exists k :: 0 <= k < |row.joins| && row.joins[k].index == i)
    && (forall j :: j in row.joins && j.index in records ==>
          CanLookUp(sc, row, records, j) && records[j.index] == Outcome(sc, row, table, records, j))
    && BelowAllClosed(sc, row, table, records)
  }

  lemma OneMoreLookup(sc: Cache, row: Row, table: Table, records: map<int, int>, resolved: seq<int>, j: QueryJoin)
    requires DistinctIndexes(row.joins) && Sound(sc, row, table, records, resolved)
    requires j in row.joins && j.index !in records && CanLookUp(sc, row, records, j)
    ensures var more := records[j.index := Outcome(sc, row, table, records, j)];
            Sound(sc, row, table, more, resolved + [j.index]) && Keeps(records, more)
  {
    var more := records[j.index := Outcome(sc, row, table, records, j)];
    AddOutcome(sc, row, table, records, j);
    var at :| 0 <= at < |row.joins| && row.joins[at] == j;
    forall o | o in row.joins && o.index in more
      ensures CanLookUp(sc, row, more, o) && more[o.index] == Outcome(sc, row, table, more, o)
    {
      if o.index == j.index {
        var b :| 0 <= b < |row.joins| && row.joins[b] == o;
        assert o == j;
      }
      KeyStays(sc, row, records, more, o, row.uniqueIndexes[o.index]);
    }
    forall i | i in more
      ensures exists k :: 0 <= k < |row.joins| && row.joins[k].index == i
    {
      if i == j.index {
        assert row.joins[at].index == i;
      }
    }
  }

  function Elements(xs: seq<int>): set<int> {
    set i | i in xs
  }

  lemma {:induction false} DistinctSize(xs: seq<int>)
    requires forall a, b :: 0 <= a < b < |xs| ==> xs[a] != xs[b]
    ensures |Elements(xs)| == |xs|
  {
    if xs != [] {
      var n := |xs| - 1;
      DistinctSize(xs[..n]);
      assert xs == xs[..n] + [xs[n]];
      assert Elements(xs) == Elements(xs[..n]) + {xs[n]};
    }
  }

  function JoinIndexes(joins: seq<QueryJoin>): set<int> {
    if joins == [] then {} else JoinIndexes(joins[..|joins| - 1]) + {joins[|joins| - 1].index}
  }

  lemma {:induction false} JoinIndexesHave(joins: seq<QueryJoin>)
    ensures |JoinIndexes(joins)| <= |joins|
    ensures forall i :: i in JoinIndexes(joins) <==> exists k :: 0 <= k < |joins| && joins[k].index == i
  {
    if joins != [] {
      var n := |joins| - 1;
      JoinIndexesHave(joins[..n]);
      assert forall k :: 0 <= k < n ==> joins[..n][k] == joins[k];
    }
  }

  lemma SubsetSize(a: set<int>, b: set<int>)
    requires a <= b
    ensures |a| <= |b| && (|a| == |b| ==> a == b)
  {
    assert b == a + (b - a);
  }

  // With as many lookups as joins, none is left.
  lemma AllLookedUp(sc: Cache, row: Row, table: Table, records: map<int, int>, resolved: seq<int>)
    requires Sound(sc, row, table, records, resolved)
    requires |resolved| >= |row.joins|
    ensures Closed(sc, row, table, records)
  {
    DistinctSize(resolved);
    JoinIndexesHave(row.joins);
    assert Elements(resolved) <= JoinIndexes(row.joins);
    SubsetSize(Elements(resolved), JoinIndexes(row.joins));
    forall j | j in row.joins
      ensures j.index in records
    {
      var k :| 0 <= k < |row.joins| && row.joins[k] == j;
      assert j.index in JoinIndexes(row.joins);
    }
  }

  // So it is with as many lookups as unique indexes.
  lemma AllUniqueIndexesResolved(sc: Cache, row: Row, table: Table, records: map<int, int>, resolved: seq<int>)
    requires Sound(sc, row, table, records, resolved)
    requires |resolved| == |row.uniqueIndexes|
    ensures Closed(sc, row, table, records)
  {
    forall i | i in resolved
      ensures i in row.uniqueIndexes
    {
      var k :| 0 <= k < |row.joins| && row.joins[k].index == i;
      assert row.joins[k] in row.joins;
    }
    DistinctSize(resolved);
    SubsetSize(Elements(resolved), row.uniqueIndexes.Keys);
    assert forall i :: i in row.uniqueIndexes ==> i in Elements(resolved);
  }

  // ---- the program's own loops

  method FindPart(sc: Cache, row: Row, records: map<int, int>, j: QueryJoin, id: Id) returns (part: Option<Value>)
    ensures part == Part(sc, row, records, j, id)
  {
    if !IsRelationship(sc, id) {
      var atrId := if id in sc.attributes then id else NIL;
      if j.index !in row.values {
        return None;
      }
      var columns := row.values[j.index];
      for k := 0 to |columns|
        invariant FirstValue(columns, atrId) == FirstValue(columns[k..], atrId)
      {
        assert columns[k..][1..] == columns[k + 1..];
        if columns[k].0 == atrId {
          return Some(columns[k].1);
        }
      }
      return None;
    }
    var relationshipId := sc.attributes[id].relationshipId;
    for k := 0 to |row.joins|
      invariant FirstPartner(row.joins, j, relationshipId) == FirstPartner(row.joins[k..], j, relationshipId)
    {
      assert row.joins[k..][1..] == row.joins[k + 1..];
      var o := row.joins[k];
      if relationshipId == Some(o.relationId) && (o.index == j.indexFrom || o.indexFrom == j.index) {
        return if HasRecord(records, o.index) then Some(Number(records[o.index])) else None;
      }
    }
    return None;
  }

  method FindKey(sc: Cache, row: Row, records: map<int, int>, j: QueryJoin, ids: seq<Id>) returns (paras: seq<Column>)
    ensures |paras| <= |ids|
    ensures Key(sc, row, records, j, ids) == if |paras| == |ids| then Some(paras) else None
  {
    paras := [];
    for k := 0 to |ids|
      invariant |paras| <= k
      invariant Key(sc, row, records, j, ids[..k]) == if |paras| == k then Some(paras) else None
    {
      assert ids[..k + 1][..k] == ids[..k];
      var part := FindPart(sc, row, records, j, ids[k]);
      if part.Some? {
        paras := paras + [(ids[k], part.value)];
      }
    }
    assert ids[..|ids|] == ids;
  }

  // One pass over the joins. Everything that could be looked up before the pass has been looked up
  // after it.
  method LookUpPass(sc: Cache, row: Row, table: Table, records: map<int, int>, resolved: seq<int>)
    returns (error: Option<Error>, after: map<int, int>, resolvedAfter: seq<int>)
    requires DistinctIndexes(row.joins) && Sound(sc, row, table, records, resolved)
    ensures error.None? ==>
              && Sound(sc, row, table, after, resolvedAfter) && |resolvedAfter| >= |resolved|
              && (Closed(sc, row, table, after) || |resolvedAfter| > |resolved|)
              && (Closed(sc, row, table, records) ==> after == records)
    ensures error.Some? ==> exists j :: j in row.joins && j.relationId !in sc.relations
  {
    error, after, resolvedAfter := None, records, resolved;
    for k := 0 to |row.joins|
      invariant Sound(sc, row, table, after, resolvedAfter) && |resolvedAfter| >= |resolved|
      invariant Closed(sc, row, table, records) ==> after == records && resolvedAfter == resolved
      invariant |resolvedAfter| == |resolved| ==>
                  after == records && forall m :: 0 <= m < k && CanLookUp(sc, row, records, row.joins[m]) ==>
                        row.joins[m].index in records
    {
      var join := row.joins[k];
      assert join in row.joins;
      if HasRecord(after, join.index) {
        continue;
      }
      if join.index !in row.uniqueIndexes {
        continue;
      }
      if join.index in resolvedAfter {
        continue;
      }
      var ids := row.uniqueIndexes[join.index];
      var paras := FindKey(sc, row, after, join, ids);
      if |paras| != |ids| {
        continue;
      }
      if join.relationId !in sc.relations {
        return Some(UnknownAttribute(join.relationId)), after, resolvedAfter;
      }
      OneMoreLookup(sc, row, table, after, resolvedAfter, join);
      var found := table(join.relationId, paras);
      after := after[join.index := if found.Some? then found.value else 0];
      resolvedAfter := resolvedAfter + [join.index];
    }
    if |resolvedAfter| == |resolved| {
      forall j | j in row.joins && CanLookUp(sc, row, after, j)
        ensures j.index in after && after[j.index] == Outcome(sc, row, table, after, j)
      {
        var m :| 0 <= m < |row.joins| && row.joins[m] == j;
      }
    }
  }

  // The lookups of a row, at most one more pass than there are joins: no join is looked up twice, and
  // the outcomes are the least solution, so that nothing is left that could still be looked up.
  method LookUpRecords(sc: Cache, row: Row, table: Table)
    returns (error: Option<Error>, records: map<int, int>, indexesResolved: seq<int>)
    requires DistinctIndexes(row.joins)
    ensures error.None? ==> LeastClosed(sc, row, table, records)
    ensures error.None? ==> forall a, b :: 0 <= a < b < |indexesResolved| ==> indexesResolved[a] != indexesResolved[b]
    ensures error.None? ==> forall i :: i in records <==> i in indexesResolved
    ensures error.Some? ==> exists j :: j in row.joins && j.relationId !in sc.relations
  {
    error, records, indexesResolved := None, map[], [];
    var attempts := |row.joins| + 1;
    for i := 0 to attempts
      invariant Sound(sc, row, table, records, indexesResolved)
      invariant Closed(sc, row, table, records) || |indexesResolved| >= i
      invariant error.None?
    {
      ghost var before := |indexesResolved|;
      error, records, indexesResolved := LookUpPass(sc, row, table, records, indexesResolved);
      if error.Some? {
        return;
      }
      if |indexesResolved| == |row.uniqueIndexes| {
        AllUniqueIndexesResolved(sc, row, table, records, indexesResolved);
        return;
      }
    }
    if !Closed(sc, row, table, records) {
      AllLookedUp(sc, row, table, records, indexesResolved);
    }
  }
}
