/** The data SET request: records of several joined relations are created or updated in one call, in an
    order that depends on which side holds the relationship attribute (data/data_set.go). */
module DataSets {
  import opened Wrappers
  import opened DataRequest
  import opened SqlTree
  import opened SchemaCache

  // a single value, or a list of record IDs
  datatype SetValue = Single(value: Value) | RecordIds(ids: seq<int>)

  // attributeIdNm: the attribute to the partner, if the relationship is n:m by the relation of attributeId
  datatype SetAttribute = SetAttribute(attributeId: Id, attributeIdNm: Option<Id>, outsideIn: bool, value: SetValue)

  // recordId is 0 for a new record; attributeId is the relationship attribute of the join with indexFrom
  datatype DataSet = DataSet(relationId: Id, attributeId: Id, indexFrom: int, recordId: int,
      attributes: seq<SetAttribute>)

  type Request = map<int, DataSet>

  type Column = (Id, SetValue)

  // records of another relation that are to refer to this one
  datatype Reference = Reference(attributeId: Id, attributeIdNm: Option<Id>, values: seq<int>)

  // a relationship attribute set to the record of a partner index
  datatype Link = Link(attributeId: Id, partner: int, recordId: int)

  // what has been done for an index: the statement for its record, then the references to it; the new record
  // ID of an insert is what the database returned
  datatype Write =
    | Inserted(index: int, columns: seq<Column>, links: seq<Link>, recordId: int, references: seq<Reference>)
    | Updated(index: int, columns: seq<Column>, recordId: int, policy: seq<Token>, references: seq<Reference>)
    | Referred(index: int, recordId: int, references: seq<Reference>)

  // a statement before it is run; a reference takes one or more
  datatype Statement =
    | InsertRow(index: int, columns: seq<Column>, links: seq<Link>)
    | UpdateRow(index: int, columns: seq<Column>, recordId: int, policy: seq<Token>)
    | Refer(index: int, recordId: int, reference: Reference)

  // What the database answers to a statement after others: nothing if it refuses it, else a record ID, which
  // matters for an insert. A statement that names a column twice is refused by every database.
  type Database = (seq<Write>, Statement) -> Option<nat>

  ghost predicate Accepts(database: Database) {
    forall log, s :: database(log, s).Some? && database(log, s).value > 0
  }

  datatype WriteError = Refused(error: Error) | ProtectedPreset | DuplicateColumn | DatabaseRefused

  // attributes of preset records that must not be changed: relation, record (0 for a preset without a
  // record) and attribute
  type Protection = set<(Id, int, Id)>

  // joined data sets name a lower index as their source
  predicate SourcesAreLower(sets: Request) {
    forall i :: i in sets && sets[i].indexFrom in sets ==> sets[i].indexFrom <= i
  }

  // ---- what is written for one index

  // values of other relations' relationship attributes and files have no column
  predicate HasColumn(sc: Cache, a: SetAttribute) {
    a.attributeId in sc.attributes && !IsReference(sc, a) && !sc.attributes[a.attributeId].content.Files?
  }

  predicate IsReference(sc: Cache, a: SetAttribute) {
    && a.outsideIn && a.attributeId in sc.attributes
    && (sc.attributes[a.attributeId].content.Relationship? || sc.attributes[a.attributeId].content.Relationship11?)
  }

  function OwnColumns(sc: Cache, attributes: seq<SetAttribute>): seq<Column> {
    if attributes == [] then []
    else
      var n := |attributes| - 1;
      OwnColumns(sc, attributes[..n]) +
      if HasColumn(sc, attributes[n]) then [(attributes[n].attributeId, attributes[n].value)] else []
  }

  // the record IDs in a value: a number, or a list of them
  function IdsIn(value: SetValue): seq<int> {
    match value
    case RecordIds(ids) => ids
    case Single(Number(n)) => [n]
    case _ => []
  }

  function ReferencesIn(sc: Cache, attributes: seq<SetAttribute>): seq<Reference> {
    if attributes == [] then []
    else
      var n := |attributes| - 1;
      var a := attributes[n];
      ReferencesIn(sc, attributes[..n]) +
      if IsReference(sc, a) then [Reference(a.attributeId, a.attributeIdNm, IdsIn(a.value))] else []
  }

  // the first value given for an attribute is not nil
  predicate Supplied(attributes: seq<SetAttribute>, id: Id) {
    attributes != [] &&
    if attributes[0].attributeId == id then attributes[0].value != Single(Nil) else Supplied(attributes[1..], id)
  }

  predicate OnSideOf(sc: Cache, attributeId: Id, relationId: Id) {
    attributeId in sc.attributes && sc.attributes[attributeId].relationId == relationId
  }

  // x is joined from i, and i's record holds the reference
  predicate HoldsForChild(sc: Cache, sets: Request, i: int, x: int)
    requires i in sets && x in sets
  {
    x != i && sets[x].indexFrom == i && OnSideOf(sc, sets[x].attributeId, sets[i].relationId)
  }

  // i is joined from x, and i's record holds the reference
  predicate HoldsForSource(sc: Cache, sets: Request, i: int, x: int)
    requires i in sets && x in sets
  {
    && x != i && sets[i].indexFrom == x && OnSideOf(sc, sets[i].attributeId, sets[i].relationId)
    && sets[i].relationId != sets[x].relationId
  }

  // a new record of index i is inserted with a reference to the record of index x
  predicate IsLink(sc: Cache, sets: Request, i: int, x: int)
    requires i in sets && x in sets
  {
    || (HoldsForChild(sc, sets, i, x) && !Supplied(sets[i].attributes, sets[x].attributeId))
    || HoldsForSource(sc, sets, i, x)
  }

  function LinkAttribute(sets: Request, i: int, x: int): Id
    requires i in sets && x in sets
  {
    if sets[x].indexFrom == i then sets[x].attributeId else sets[i].attributeId
  }

  // columns are written by the names of their attributes
  function ColumnName(sc: Cache, id: Id): string {
    if id in sc.attributes then sc.attributes[id].name else ""
  }

  // an INSERT or UPDATE cannot name a column twice
  predicate DistinctColumns(sc: Cache, columns: seq<Column>, links: seq<Link>) {
    && (forall j, k :: 0 <= j < k < |columns| ==> ColumnName(sc, columns[j].0) != ColumnName(sc, columns[k].0))
    && (forall j, k :: 0 <= j < k < |links| ==>
          ColumnName(sc, links[j].attributeId) != ColumnName(sc, links[k].attributeId))
    && (forall j, k :: 0 <= j < |columns| && 0 <= k < |links| ==>
          ColumnName(sc, columns[j].0) != ColumnName(sc, links[k].attributeId))
  }

  // ---- what the statements say together

  function InsertedId(log: seq<Write>, i: int): int {
    if log == [] then 0
    else
      var n := |log| - 1;
      if log[n].Inserted? && log[n].index == i then log[n].recordId else InsertedId(log[..n], i)
  }

  // the record of an index after some statements; 0 if it does not exist yet
  function RecordOf(sets: Request, log: seq<Write>, i: int): int
    requires i in sets
  {
    if sets[i].recordId != 0 then sets[i].recordId else InsertedId(log, i)
  }

  predicate HasEntry(log: seq<Write>, i: int) {
    exists k :: 0 <= k < |log| && log[k].index == i
  }

  predicate LinkRight(sc: Cache, sets: Request, before: seq<Write>, i: int, l: Link)
    requires i in sets
  {
    && l.partner in sets && IsLink(sc, sets, i, l.partner)
    && l.attributeId == LinkAttribute(sets, i, l.partner)
    && l.recordId == RecordOf(sets, before, l.partner) != 0
  }

  predicate Mentions(links: seq<Link>, x: int) {
    exists k :: 0 <= k < |links| && links[k].partner == x
  }

  // what is right to be done for an index after what was done before
  predicate EntryRight(sc: Cache, sets: Request, before: seq<Write>, w: Write) {
    && w.index in sets
    && var s := sets[w.index];
       && !HasEntry(before, w.index)
       && w.references == ReferencesIn(sc, s.attributes)
       && w.recordId != 0
       && match w
          case Inserted(i, columns, links, _, _) =>
            && s.recordId == 0
            && columns == OwnColumns(sc, s.attributes)
            && DistinctColumns(sc, columns, links)
            && (forall k :: 0 <= k < |links| ==> LinkRight(sc, sets, before, i, links[k]))
            && (forall x :: x in sets && IsLink(sc, sets, i, x) ==> Mentions(links, x))
          case Updated(_, columns, recordId, policy, _) =>
            && s.recordId == recordId
            && columns == OwnColumns(sc, s.attributes) != []
            && DistinctColumns(sc, columns, [])
            && s.relationId in sc.relations
            && PolicyFilter(sc, "update", 0, 0, sc.relations[s.relationId].policies) == Success(policy)
          case Referred(_, recordId, references) =>
            s.recordId == recordId && OwnColumns(sc, s.attributes) == [] && references != []
  }

  predicate LogRight(sc: Cache, sets: Request, log: seq<Write>) {
    forall k :: 0 <= k < |log| ==> EntryRight(sc, sets, log[..k], log[k])
  }

  predicate NeedsWrite(sc: Cache, s: DataSet) {
    s.recordId == 0 || OwnColumns(sc, s.attributes) != [] || ReferencesIn(sc, s.attributes) != []
  }

  predicate Complete(sc: Cache, sets: Request, log: seq<Write>) {
    && LogRight(sc, sets, log)
    && forall i :: i in sets && NeedsWrite(sc, sets[i]) ==> HasEntry(log, i)
  }

  predicate AuthorizedRelation(sc: Cache, id: Id, requested: int) {
    sc.access.Some? && id in sc.access.value.relation && sc.access.value.relation[id] >= requested
  }

  predicate Authorized(sc: Cache, guarded: Protection, s: DataSet) {
    && s.relationId in sc.relations
    && (s.recordId == 0 ==> AuthorizedRelation(sc, s.relationId, 2))
    && forall a :: a in s.attributes ==>
         AuthorizedAttribute(sc, a.attributeId, 2) && (s.relationId, s.recordId, a.attributeId) !in guarded
  }

  // ---- requests that cannot be written, read off the request alone

  // the attribute of a join between i and x is unknown
  predicate UnknownJoin(sc: Cache, sets: Request, i: int, x: int)
    requires i in sets && x in sets
  {
    x != i && ((sets[x].indexFrom == i && sets[x].attributeId !in sc.attributes) ||
               (sets[i].indexFrom == x && sets[i].attributeId !in sc.attributes))
  }

  // the relation or its module is unknown
  predicate UnknownPlace(sc: Cache, relationId: Id) {
    relationId !in sc.relations || sc.relations[relationId].moduleId !in sc.modules
  }

  // where the references are held is unknown; without any record to refer, the partner attribute is not looked at
  predicate UnknownReference(sc: Cache, r: Reference) {
    || r.attributeId !in sc.attributes
    || UnknownPlace(sc, sc.attributes[r.attributeId].relationId)
    || (r.values != [] && r.attributeIdNm.Some? && r.attributeIdNm.value !in sc.attributes)
  }

  // the record of index i cannot be written: the schema does not know something that it names; joins are looked
  // at for new records, policies for updates
  predicate UnwritableRow(sc: Cache, sets: Request, i: int)
    requires i in sets
  {
    var s := sets[i];
    || UnknownPlace(sc, s.relationId)
    || (exists k :: 0 <= k < |s.attributes| && s.attributes[k].attributeId !in sc.attributes)
    || (s.recordId == 0 && exists x :: x in sets && UnknownJoin(sc, sets, i, x))
    || (s.recordId != 0 && OwnColumns(sc, s.attributes) != [] &&
        PolicyFilter(sc, "update", 0, 0, sc.relations[s.relationId].policies).Failure?)
  }

  predicate UnwritableReferences(sc: Cache, s: DataSet) {
    var references := ReferencesIn(sc, s.attributes);
    exists k :: 0 <= k < |references| && UnknownReference(sc, references[k])
  }

  predicate Unwritable(sc: Cache, sets: Request, i: int)
    requires i in sets
  {
    UnwritableRow(sc, sets, i) || UnwritableReferences(sc, sets[i])
  }

  predicate GivesColumn(sc: Cache, s: DataSet, id: Id) {
    var columns := OwnColumns(sc, s.attributes);
    exists k :: 0 <= k < |columns| && ColumnName(sc, columns[k].0) == ColumnName(sc, id)
  }

  // The statement of index i names a column twice: two of its own, one of its own that a join fills in, or
  // one that two joins fill in.
  predicate NamesColumnTwice(sc: Cache, sets: Request, i: int)
    requires i in sets
  {
    || !DistinctColumns(sc, OwnColumns(sc, sets[i].attributes), [])
    || (sets[i].recordId == 0 &&
        exists x :: x in sets && IsLink(sc, sets, i, x) && GivesColumn(sc, sets[i], LinkAttribute(sets, i, x)))
    || (sets[i].recordId == 0 &&
        exists x, y :: x in sets && y in sets && SameLinkColumn(sc, sets, i, x, y))
  }

  predicate SameLinkColumn(sc: Cache, sets: Request, i: int, x: int, y: int)
    requires i in sets && x in sets && y in sets
  {
    && x != y && IsLink(sc, sets, i, x) && IsLink(sc, sets, i, y)
    && ColumnName(sc, LinkAttribute(sets, i, x)) == ColumnName(sc, LinkAttribute(sets, i, y))
  }

  // every error of writing has its reason in the request or in the database
  ghost predicate Explained(sc: Cache, sets: Request, database: Database, error: Option<WriteError>) {
    match error
    case None => true
    case Some(Refused(_)) => exists i :: i in sets && Unwritable(sc, sets, i)
    case Some(DuplicateColumn) => exists i :: i in sets && NamesColumnTwice(sc, sets, i)
    case Some(DatabaseRefused) => !Accepts(database)
    case Some(ProtectedPreset) => false
  }

  // ---- what a log stays

  lemma InsertedIdAppends(log: seq<Write>, w: Write, i: int)
    ensures InsertedId(log + [w], i) == if w.Inserted? && w.index == i then w.recordId else InsertedId(log, i)
  {
    assert (log + [w])[..|log|] == log;
  }

  lemma LogRightAppends(sc: Cache, sets: Request, log: seq<Write>, w: Write)
    requires LogRight(sc, sets, log) && EntryRight(sc, sets, log, w)
    ensures LogRight(sc, sets, log + [w])
  {
    forall k | 0 <= k < |log| + 1
      ensures EntryRight(sc, sets, (log + [w])[..k], (log + [w])[k])
    {
      assert (log + [w])[..k] == log[..k];
      assert log[..|log|] == log;
    }
  }

  lemma HasEntryAppends(log: seq<Write>, w: Write, i: int)
    ensures HasEntry(log + [w], i) <==> HasEntry(log, i) || w.index == i
  {
    if HasEntry(log, i) {
      var k :| 0 <= k < |log| && log[k].index == i;
      assert (log + [w])[k].index == i;
    }
    if w.index == i {
      assert (log + [w])[|log|].index == i;
    }
  }

  lemma Inhabited(s: set<int>)
    ensures s == {} || exists i :: i in s
  {
    if forall i :: i !in s {
      assert s == {};
    }
  }

  lemma LowestExists(s: set<int>)
    requires s != {}
    ensures exists i :: i in s && forall j :: j in s ==> i <= j
  {
    Inhabited(s);
    var x :| x in s;
    if s - {x} != {} {
      LowestExists(s - {x});
      var i :| i in s - {x} && forall j :: j in s - {x} ==> i <= j;
      var low := if x < i then x else i;
      assert forall j :: j in s ==> j == x || j in s - {x};
      assert low in s && forall j :: j in s ==> low <= j;
    } else {
      assert forall j :: j in s ==> j == x || j in s - {x};
    }
  }

  lemma Highest(s: set<int>) returns (top: int)
    ensures forall i :: i in s ==> i <= top
  {
    top := 0;
    if s != {} {
      Inhabited(s);
      var x :| x in s;
      top := Highest(s - {x});
      assert forall i :: i in s ==> i == x || i in s - {x};
      if x > top {
        top := x;
      }
    }
  }

  // ---- the program's own recursion

  datatype Progress = Progress(finished: set<int>, created: set<int>, ids: map<int, int>)

  // what working on index i may change: it finishes i, and higher indexes through the recursion
  predicate Grows(p: Progress, q: Progress, i: int) {
    && p.finished <= q.finished && p.created <= q.created
    && p.finished - p.created <= q.finished - q.created
    && (forall j :: j in q.finished && j !in p.finished ==> j >= i && (j == i || j in q.created))
    && (forall j :: j in p.finished ==> j in p.ids && j in q.ids && p.ids[j] == q.ids[j])
  }

  lemma GrowsOn(p: Progress, q: Progress, r: Progress, i: int)
    requires Grows(p, q, i) && Grows(q, r, i)
    ensures Grows(p, r, i)
  {
  }

  // index i is done: its record exists, and so does its statement, if it needs one
  ghost predicate Done(sc: Cache, sets: Request, p: Progress, log: seq<Write>, active: set<int>, i: int)
    requires i in sets
  {
    && i in p.ids && p.ids[i] == RecordOf(sets, log, i) != 0
    && (NeedsWrite(sc, sets[i]) ==> HasEntry(log, i))
    && !Unwritable(sc, sets, i)
    && (sets[i].indexFrom in sets && sets[i].indexFrom != i ==>
          sets[i].indexFrom in p.finished || sets[i].indexFrom in active)
  }

  // what holds while the indexes of active are being worked on
  ghost predicate Sound(sc: Cache, sets: Request, p: Progress, log: seq<Write>, active: set<int>) {
    && p.created <= p.finished <= sets.Keys
    && LogRight(sc, sets, log)
    && (forall k :: 0 <= k < |log| ==> log[k].index in p.finished)
    && (forall i :: i in p.finished ==> Done(sc, sets, p, log, active, i))
  }

  lemma AppendKeepsDone(sc: Cache, sets: Request, p: Progress, log: seq<Write>, active: set<int>, w: Write, i: int)
    requires w.index in sets && w.index !in p.finished
    requires i in sets && i in p.finished && Done(sc, sets, p, log, active + {w.index}, i)
    ensures Done(sc, sets, p.(finished := p.finished + {w.index}), log + [w], active, i)
  {
    InsertedIdAppends(log, w, i);
    HasEntryAppends(log, w, i);
  }

  lemma AppendKeepsSound(sc: Cache, sets: Request, p: Progress, log: seq<Write>, active: set<int>, w: Write)
    requires Sound(sc, sets, p, log, active + {w.index})
    requires w.index in sets && w.index !in p.finished && EntryRight(sc, sets, log, w)
    requires w.index in p.ids && p.ids[w.index] == w.recordId && !Unwritable(sc, sets, w.index)
    requires sets[w.index].indexFrom in sets && sets[w.index].indexFrom != w.index ==>
               sets[w.index].indexFrom in p.finished || sets[w.index].indexFrom in active
    ensures Sound(sc, sets, p.(finished := p.finished + {w.index}), log + [w], active)
  {
    LogRightAppends(sc, sets, log, w);
    var q := p.(finished := p.finished + {w.index});
    forall i | i in q.finished
      ensures Done(sc, sets, q, log + [w], active, i)
    {
      if i == w.index {
        InsertedIdAppends(log, w, i);
        HasEntryAppends(log, w, i);
      } else {
        AppendKeepsDone(sc, sets, p, log, active, w, i);
      }
    }
  }

  // links of a record that is being worked on: they are right, their partners are done, and each is there once
  ghost predicate LinksRight(sc: Cache, sets: Request, p: Progress, log: seq<Write>, i: int, links: seq<Link>)
    requires i in sets
  {
    && (forall k :: 0 <= k < |links| ==> LinkRight(sc, sets, log, i, links[k]) && links[k].partner in p.finished)
    && (forall j, k :: 0 <= j < k < |links| ==> links[j].partner != links[k].partner)
  }

  // More work done does not touch them.
  lemma LinksStayRight(sc: Cache, sets: Request, p: Progress, before: seq<Write>, q: Progress, log: seq<Write>,
                       active: set<int>, i: int, links: seq<Link>)
    requires i in sets && LinksRight(sc, sets, p, before, i, links)
    requires Sound(sc, sets, p, before, active) && Sound(sc, sets, q, log, active) && Grows(p, q, i)
    ensures LinksRight(sc, sets, q, log, i, links)
  {
    forall k | 0 <= k < |links|
      ensures LinkRight(sc, sets, log, i, links[k]) && links[k].partner in q.finished
    {
      var x := links[k].partner;
      assert Done(sc, sets, p, before, active, x) && Done(sc, sets, q, log, active, x);
    }
  }

  // what has been found out about the others than those that are left
  ghost predicate Covered(sc: Cache, sets: Request, i: int, left: set<int>, links: seq<Link>)
    requires i in sets
  {
    forall x :: x in sets && x !in left ==>
          !UnknownJoin(sc, sets, i, x) && (IsLink(sc, sets, i, x) <==> Mentions(links, x))
  }

  lemma CoverOneMore(sc: Cache, sets: Request, i: int, left: set<int>, links: seq<Link>, other: int, link: Option<Link>)
    requires i in sets && other in sets && other in left && Covered(sc, sets, i, left, links)
    requires !UnknownJoin(sc, sets, i, other)
    requires forall k :: 0 <= k < |links| ==> links[k].partner !in left
    requires if link.Some? then link.value.partner == other && IsLink(sc, sets, i, other)
             else !IsLink(sc, sets, i, other)
    ensures var r := links + if link.Some? then [link.value] else [];
            && Covered(sc, sets, i, left - {other}, r)
            && forall k :: 0 <= k < |r| ==> r[k].partner !in left - {other}
  {
    var r := links + if link.Some? then [link.value] else [];
    forall x
      ensures Mentions(r, x) <==> Mentions(links, x) || (link.Some? && x == other)
    {
      if Mentions(links, x) {
        var k :| 0 <= k < |links| && links[k].partner == x;
        assert r[k].partner == x;
      }
      if link.Some? && x == other {
        assert r[|links|].partner == x;
      }
    }
    assert !Mentions(links, other);
  }

  // If the columns of a new record are not distinct, the request names one of them twice.
  lemma DuplicateIsNamedTwice(sc: Cache, sets: Request, log: seq<Write>, i: int, links: seq<Link>)
    requires i in sets && sets[i].recordId == 0
    requires forall k :: 0 <= k < |links| ==> LinkRight(sc, sets, log, i, links[k])
    requires forall j, k :: 0 <= j < k < |links| ==> links[j].partner != links[k].partner
    requires !DistinctColumns(sc, OwnColumns(sc, sets[i].attributes), links)
    ensures NamesColumnTwice(sc, sets, i)
  {
    var columns := OwnColumns(sc, sets[i].attributes);
    if DistinctColumns(sc, columns, []) {
      if j, k :| 0 <= j < k < |links| && ColumnName(sc, links[j].attributeId) == ColumnName(sc, links[k].attributeId) {
        assert LinkRight(sc, sets, log, i, links[j]) && LinkRight(sc, sets, log, i, links[k]);
        assert SameLinkColumn(sc, sets, i, links[j].partner, links[k].partner);
      } else {
        var j, k :| 0 <= j < |columns| && 0 <= k < |links| &&
                    ColumnName(sc, columns[j].0) == ColumnName(sc, links[k].attributeId);
        assert LinkRight(sc, sets, log, i, links[k]);
        assert GivesColumn(sc, sets[i], LinkAttribute(sets, i, links[k].partner));
      }
    }
  }

  // What has been written names no column twice.
  lemma CompleteNamesNoColumnTwice(sc: Cache, sets: Request, log: seq<Write>, i: int)
    requires Complete(sc, sets, log) && i in sets
    ensures !NamesColumnTwice(sc, sets, i)
  {
    var columns := OwnColumns(sc, sets[i].attributes);
    if NeedsWrite(sc, sets[i]) {
      var k :| 0 <= k < |log| && log[k].index == i;
      assert EntryRight(sc, sets, log[..k], log[k]);
      if sets[i].recordId == 0 {
        var links := log[k].links;
        forall x | x in sets && IsLink(sc, sets, i, x)
          ensures exists m ::
                    0 <= m < |links| && links[m].partner == x &&
                    links[m].attributeId == LinkAttribute(sets, i, x)
        {
          assert Mentions(links, x);
          var m :| 0 <= m < |links| && links[m].partner == x;
          assert LinkRight(sc, sets, log[..k], i, links[m]);
        }
      }
    }
  }

  class Writer {
    const sc: Cache
    const sets: Request
    const database: Database
    var indexRecordIds: map<int, int>
    var indexRecordsCreated: set<int>
    var log: seq<Write>
    ghost var finished: set<int>

    constructor (sc: Cache, sets: Request, database: Database)
      requires SourcesAreLower(sets)
      ensures this.sc == sc && this.sets == sets && this.database == database
      ensures Valid({}) && finished == {} && log == []
    {
      this.sc, this.sets, this.database := sc, sets, database;
      indexRecordIds, indexRecordsCreated, log := map[], {}, [];
      finished := {};
    }

    ghost predicate Valid(active: set<int>)
      reads this
    {
      SourcesAreLower(sets) && Sound(sc, sets, Reached(), log, active)
    }

    // i can be worked on: its source is done, or is waiting for i's record
    ghost predicate Ready(active: set<int>, i: int)
      reads this
    {
      && i in sets
      && (i in finished ==> i in indexRecordsCreated)
      && (forall a :: a in active ==> a < i)
      && (i !in finished && sets[i].indexFrom in sets && sets[i].indexFrom != i ==>
            sets[i].indexFrom in finished ||
                (sets[i].indexFrom in active && HoldsForChild(sc, sets, sets[i].indexFrom, i)))
    }

    ghost predicate KnownAttributes(i: int)
      requires i in sets
    {
      forall k :: 0 <= k < |sets[i].attributes| ==> sets[i].attributes[k].attributeId in sc.attributes
    }

    ghost predicate ChildrenCreated(i: int)
      requires finished <= sets.Keys
      reads this
    {
      forall j :: j in finished && j != i && sets[j].indexFrom == i ==> j in indexRecordsCreated
    }

    ghost function Reached(): Progress
      reads this
    {
      Progress(finished, indexRecordsCreated, indexRecordIds)
    }

    method CollectValues(attributes: seq<SetAttribute>) returns (r: Result<(seq<Column>, seq<Reference>), WriteError>)
      ensures r.Success? ==> r.value == (OwnColumns(sc, attributes), ReferencesIn(sc, attributes))
      ensures r.Success? ==> forall k :: 0 <= k < |attributes| ==> attributes[k].attributeId in sc.attributes
      ensures r.Failure? ==> r.error.Refused?
      ensures r.Failure? ==> exists k :: 0 <= k < |attributes| && attributes[k].attributeId !in sc.attributes
    {
      var values: seq<Column> := [];
      var relationshipValues: seq<Reference> := [];
      for i := 0 to |attributes|
        invariant values == OwnColumns(sc, attributes[..i])
        invariant relationshipValues == ReferencesIn(sc, attributes[..i])
        invariant forall k :: 0 <= k < i ==> attributes[k].attributeId in sc.attributes
      {
        assert attributes[..i + 1][..i] == attributes[..i];
        var a := attributes[i];
        if a.attributeId !in sc.attributes {
          return Failure(Refused(UnknownAttribute(a.attributeId)));
        }
        var content := sc.attributes[a.attributeId].content;
        if a.outsideIn && (content.Relationship? || content.Relationship11?) {
          relationshipValues := relationshipValues + [Reference(a.attributeId, a.attributeIdNm, IdsIn(a.value))];
          continue;
        }
        if content.Files? {
          continue;
        }
        values := values + [(a.attributeId, a.value)];
      }
      assert attributes[..|attributes|] == attributes;
      return Success((values, relationshipValues));
    }

    method RelationshipValueSet(attributes: seq<SetAttribute>, id: Id) returns (given: bool)
      ensures given == Supplied(attributes, id)
    {
      for k := 0 to |attributes|
        invariant Supplied(attributes, id) == Supplied(attributes[k..], id)
      {
        assert attributes[k..][1..] == attributes[k + 1..];
        if attributes[k].attributeId == id {
          return attributes[k].value != Single(Nil);
        }
      }
      return false;
    }

    method SetForIndex(index: int, ghost active: set<int>, ghost top: int) returns (error: Option<WriteError>)
      requires Valid(active) && Ready(active, index)
      requires forall i :: i in sets ==> i <= top
      modifies this
      ensures Explained(sc, sets, database, error)
      ensures error.None? ==> Valid(active) && Grows(old(Reached()), Reached(), index) && index in finished
      decreases top - index, 6
    {
      if index in indexRecordsCreated {
        return None;
      }
      var dataSet := sets[index];
      indexRecordIds := indexRecordIds[index := dataSet.recordId];
      if dataSet.relationId !in sc.relations {
        return Some(Refused(UnknownRelation(dataSet.relationId)));
      }
      if sc.relations[dataSet.relationId].moduleId !in sc.modules {
        return Some(Refused(UnknownModule(sc.relations[dataSet.relationId].moduleId)));
      }
      var collected := CollectValues(dataSet.attributes);
      if collected.Failure? {
        return Some(collected.error);
      }
      error := SetCollected(index, collected.value.0, collected.value.1, active, top);
    }

    method SetCollected(index: int, columns: seq<Column>, references: seq<Reference>, ghost active: set<int>,
                        ghost top: int)
      returns (error: Option<WriteError>)
      requires Valid(active) && Ready(active, index) && index !in finished && Collected(index, columns, references)
      requires forall i :: i in sets ==> i <= top
      modifies this
      ensures Explained(sc, sets, database, error)
      ensures error.None? ==> Valid(active) && Grows(old(Reached()), Reached(), index) && index in finished
      decreases top - index, 5
    {
      if sets[index].recordId == 0 {
        error := CreateRecord(index, columns, references, active, top);
      } else if columns != [] {
        error := Update(index, columns, references, active);
      } else if references != [] {
        error := ReferOnly(index, references, active);
      } else {
        LeaveAsIs(index, active);
        error := None;
      }
    }

    method ReferOnly(index: int, references: seq<Reference>, ghost active: set<int>) returns (error: Option<WriteError>)
      requires Valid(active) && Ready(active, index) && index !in finished
      requires sets[index].recordId != 0 && Collected(index, [], references) && references != []
      modifies this
      ensures Explained(sc, sets, database, error)
      ensures error.None? ==> Valid(active) && Grows(old(Reached()), Reached(), index) && index in finished
    {
      error := Finish(Referred(index, sets[index].recordId, references), active);
    }

    // the values of an index have been collected, and its record ID is noted
    ghost predicate Collected(index: int, columns: seq<Column>, references: seq<Reference>)
      requires index in sets
      reads this
    {
      && index in indexRecordIds && indexRecordIds[index] == sets[index].recordId
      && !UnknownPlace(sc, sets[index].relationId) && KnownAttributes(index)
      && columns == OwnColumns(sc, sets[index].attributes) && references == ReferencesIn(sc, sets[index].attributes)
    }

    // An existing record without values is done, without a statement.
    ghost method LeaveAsIs(index: int, active: set<int>)
      requires Valid(active) && Ready(active, index) && index !in finished
      requires sets[index].recordId != 0 && Collected(index, [], [])
      modifies this`finished
      ensures Valid(active) && Grows(old(Reached()), Reached(), index) && index in finished
    {
      assert !Unwritable(sc, sets, index);
      finished := finished + {index};
    }

    method Update(index: int, columns: seq<Column>, references: seq<Reference>, ghost active: set<int>)
      returns (error: Option<WriteError>)
      requires Valid(active) && Ready(active, index) && index !in finished
      requires sets[index].recordId != 0 && Collected(index, columns, references) && columns != []
      modifies this
      ensures Explained(sc, sets, database, error)
      ensures error.None? ==> Valid(active) && Grows(old(Reached()), Reached(), index) && index in finished
    {
      var policy := GetPolicyFilter(sc, "update", 0, 0, sc.relations[sets[index].relationId].policies);
      if policy.Failure? {
        assert UnwritableRow(sc, sets, index);
        return Some(Refused(policy.error));
      }
      if !DistinctColumns(sc, columns, []) {
        assert NamesColumnTwice(sc, sets, index);
        return Some(DuplicateColumn);
      }
      if database(log, UpdateRow(index, columns, sets[index].recordId, policy.value)).None? {
        return Some(DatabaseRefused);
      }
      error := Finish(Updated(index, columns, sets[index].recordId, policy.value, references), active);
    }

    // The references of other records to the record of an index, one attribute after the other.
    method Assign(w: Write) returns (error: Option<WriteError>)
      requires w.index in sets && w.references == ReferencesIn(sc, sets[w.index].attributes)
      ensures Explained(sc, sets, database, error)
      ensures error.None? ==> !UnwritableReferences(sc, sets[w.index])
    {
      for k := 0 to |w.references|
        invariant forall j :: 0 <= j < k ==> !UnknownReference(sc, w.references[j])
      {
        var ship := w.references[k];
        if ship.attributeId !in sc.attributes {
          assert UnwritableReferences(sc, sets[w.index]);
          return Some(Refused(UnknownAttribute(ship.attributeId)));
        }
        var shipRelationId := sc.attributes[ship.attributeId].relationId;
        if shipRelationId !in sc.relations {
          assert UnwritableReferences(sc, sets[w.index]);
          return Some(Refused(UnknownRelation(shipRelationId)));
        }
        if sc.relations[shipRelationId].moduleId !in sc.modules {
          assert UnwritableReferences(sc, sets[w.index]);
          return Some(Refused(UnknownModule(sc.relations[shipRelationId].moduleId)));
        }
        if ship.values != [] && ship.attributeIdNm.Some? && ship.attributeIdNm.value !in sc.attributes {
          assert UnwritableReferences(sc, sets[w.index]);
          return Some(Refused(UnknownAttribute(ship.attributeIdNm.value)));
        }
        if database(log + [w.(references := w.references[..k])], Refer(w.index, w.recordId, ship)).None? {
          return Some(DatabaseRefused);
        }
      }
      return None;
    }

    // What is left for an index after the statement for its record, which finishes it.
    method Finish(w: Write, ghost active: set<int>) returns (error: Option<WriteError>)
      requires Valid(active + {w.index}) && Ready(active, w.index) && w.index !in finished
      requires w.index in indexRecordIds && indexRecordIds[w.index] == w.recordId && !UnwritableRow(sc, sets, w.index)
      requires EntryRight(sc, sets, log, w)
      modifies this`log, this`finished
      ensures Explained(sc, sets, database, error)
      ensures error.None? ==> Valid(active) && finished == old(finished) + {w.index} && log == old(log) + [w]
    {
      error := Assign(w);
      if error.Some? {
        return;
      }
      ghost var before := Reached();
      AppendKeepsSound(sc, sets, before, log, active, w);
      log := log + [w];
      finished := finished + {w.index};
      assert Reached() == before.(finished := before.finished + {w.index});
    }

    // The insert of a new record, after the records it refers to.
    method CreateRecord(index: int, columns: seq<Column>, references: seq<Reference>, ghost active: set<int>,
                        ghost top: int)
      returns (error: Option<WriteError>)
      requires Valid(active) && Ready(active, index) && index !in finished
      requires sets[index].recordId == 0 && Collected(index, columns, references)
      requires forall i :: i in sets ==> i <= top
      modifies this
      ensures Explained(sc, sets, database, error)
      ensures error.None? ==> Valid(active) && Grows(old(Reached()), Reached(), index) && index in finished
      decreases top - index, 4
    {
      var links;
      error, links := LinkPartners(index, active, top);
      if error.Some? {
        return;
      }
      if !DistinctColumns(sc, columns, links) {
        DuplicateIsNamedTwice(sc, sets, log, index, links);
        return Some(DuplicateColumn);
      }
      var newRecordId := database(log, InsertRow(index, columns, links));
      if newRecordId.None? || newRecordId.value == 0 {
        return Some(DatabaseRefused);
      }
      error := Insert(Inserted(index, columns, links, newRecordId.value, references), active);
    }

    method Insert(w: Write, ghost active: set<int>) returns (error: Option<WriteError>)
      requires Valid(active + {w.index}) && Ready(active, w.index) && w.index !in finished
      requires EntryRight(sc, sets, log, w) && !UnwritableRow(sc, sets, w.index)
      modifies this
      ensures Explained(sc, sets, database, error)
      ensures error.None? ==> Valid(active) && Grows(old(Reached()), Reached(), w.index) && w.index in finished
    {
      indexRecordIds := indexRecordIds[w.index := w.recordId];
      error := Finish(w, active);
    }

    method LinkPartners(index: int, ghost active: set<int>, ghost top: int)
      returns (error: Option<WriteError>, links: seq<Link>)
      requires Valid(active) && Ready(active, index) && index !in finished && sets[index].recordId == 0
      requires forall i :: i in sets ==> i <= top
      modifies this
      ensures Explained(sc, sets, database, error)
      ensures error.None? ==> Working(active, index) && Grows(old(Reached()), Reached(), index)
      ensures error.None? ==> LinksCover(index, {}, links)
      decreases top - index, 3
    {
      error, links := None, [];
      var others := sets.Keys;
      while others != {}
        invariant Working(active, index) && Grows(old(Reached()), Reached(), index)
        invariant others <= sets.Keys && error.None?
        invariant LinksCover(index, others, links)
        decreases |others|
      {
        Inhabited(others);
        var other :| other in others;
        ghost var before := Reached();
        error, links := AddLink(index, other, links, others, active, top);
        if error.Some? {
          return;
        }
        GrowsOn(old(Reached()), before, Reached(), index);
        others := others - {other};
      }
    }

    method AddLink(index: int, other: int, links: seq<Link>, ghost left: set<int>, ghost active: set<int>,
                   ghost top: int)
      returns (error: Option<WriteError>, r: seq<Link>)
      requires Working(active, index) && sets[index].recordId == 0
      requires forall i :: i in sets ==> i <= top
      requires other in left && left <= sets.Keys && LinksCover(index, left, links)
      modifies this
      ensures Explained(sc, sets, database, error)
      ensures error.None? ==>
                Working(active, index) && Grows(old(Reached()), Reached(), index) &&
                LinksCover(index, left - {other}, r)
      decreases top - index, 2
    {
      error, r := None, links;
      var link := None;
      if other != index {
        ghost var before, logBefore := Reached(), log;
        error, link := LinkTo(index, other, active, top);
        if error.Some? {
          return;
        }
        LinksStayRight(sc, sets, before, logBefore, Reached(), log, active + {index}, index, links);
      }
      CoverOneMore(sc, sets, index, left, links, other, link);
      r := links + if link.Some? then [link.value] else [];
    }

    // right links, for exactly the others that are not left
    ghost predicate LinksCover(index: int, left: set<int>, links: seq<Link>)
      requires index in sets
      reads this
    {
      && LinksRight(sc, sets, Reached(), log, index, links) && Covered(sc, sets, index, left, links)
      && forall k :: 0 <= k < |links| ==> links[k].partner !in left
    }

    // the record of i is being worked on
    ghost predicate Working(active: set<int>, i: int)
      reads this
    {
      Valid(active + {i}) && Ready(active, i) && i !in finished && ChildrenCreated(i)
    }

    // What one other index means for the insert of a new record: joined from here, or the source.
    method LinkTo(index: int, other: int, ghost active: set<int>, ghost top: int)
      returns (error: Option<WriteError>, link: Option<Link>)
      requires Working(active, index) && sets[index].recordId == 0
      requires other in sets && other != index
      requires forall i :: i in sets ==> i <= top
      modifies this
      ensures Explained(sc, sets, database, error)
      ensures error.None? ==> Working(active, index) && Grows(old(Reached()), Reached(), index)
      ensures error.None? ==> !UnknownJoin(sc, sets, index, other) && LinkFound(index, other, link)
      decreases top - index, 1
    {
      error, link := None, None;
      if sets[other].indexFrom == index {
        assert index < other;
        error, link := LinkToChild(index, other, active, top);
        if error.Some? {
          return;
        }
      }
      if sets[index].indexFrom == other {
        assert other < index;
        error, link := LinkToSource(index, other, active);
      }
    }

    // the reference that an index means, if any
    ghost predicate LinkFound(index: int, other: int, link: Option<Link>)
      requires index in sets && other in sets
      reads this
    {
      if link.None? then !IsLink(sc, sets, index, other)
      else LinkRight(sc, sets, log, index, link.value) && link.value.partner == other && other in finished
    }

    method LinkToChild(index: int, other: int, ghost active: set<int>, ghost top: int)
      returns (error: Option<WriteError>, link: Option<Link>)
      requires Working(active, index) && sets[index].recordId == 0
      requires other in sets && index < other && sets[other].indexFrom == index
      requires forall i :: i in sets ==> i <= top
      modifies this
      ensures Explained(sc, sets, database, error)
      ensures error.None? ==> Working(active, index) && Grows(old(Reached()), Reached(), index)
      ensures error.None? ==> !UnknownJoin(sc, sets, index, other) && LinkFound(index, other, link)
      decreases top - index, 0
    {
      error, link := None, None;
      var dataSet, dataSetOther := sets[index], sets[other];
      if dataSetOther.attributeId !in sc.attributes {
        assert UnknownJoin(sc, sets, index, other) && UnwritableRow(sc, sets, index);
        return Some(Refused(UnknownAttribute(dataSetOther.attributeId))), None;
      }
      if sc.attributes[dataSetOther.attributeId].relationId == dataSet.relationId {
        error := CreateChild(index, other, active, top);
        if error.Some? {
          return;
        }
        var given := RelationshipValueSet(dataSet.attributes, dataSetOther.attributeId);
        if !given {
          link := Some(Link(dataSetOther.attributeId, other, indexRecordIds[other]));
        }
      }
    }

    // the record of an index that is joined from here must be there first
    method CreateChild(index: int, other: int, ghost active: set<int>, ghost top: int)
      returns (error: Option<WriteError>)
      requires Working(active, index) && other in sets && index < other && HoldsForChild(sc, sets, index, other)
      requires forall i :: i in sets ==> i <= top
      modifies this
      ensures Explained(sc, sets, database, error)
      ensures error.None? ==> Working(active, index) && Grows(old(Reached()), Reached(), index) && other in finished
      decreases top - other, 7
    {
      error := SetForIndex(other, active + {index}, top);
      if error.None? {
        indexRecordsCreated := indexRecordsCreated + {other};
      }
    }

    method LinkToSource(index: int, other: int, ghost active: set<int>)
      returns (error: Option<WriteError>, link: Option<Link>)
      requires Working(active, index) && sets[index].recordId == 0
      requires other in sets && other < index && sets[index].indexFrom == other
      ensures Explained(sc, sets, database, error)
      ensures error.None? ==> !UnknownJoin(sc, sets, index, other) && LinkFound(index, other, link)
    {
      var dataSet, dataSetOther := sets[index], sets[other];
      if dataSet.attributeId !in sc.attributes {
        assert UnknownJoin(sc, sets, index, other) && UnwritableRow(sc, sets, index);
        return Some(Refused(UnknownAttribute(dataSet.attributeId))), None;
      }
      if sc.attributes[dataSet.attributeId].relationId == dataSet.relationId &&
          dataSet.relationId != dataSetOther.relationId {
        return None, Some(Link(dataSet.attributeId, other, indexRecordIds[other]));
      }
      return None, None;
    }
  }

  method CheckAccess(sc: Cache, guarded: Protection, s: DataSet) returns (error: Option<WriteError>)
    ensures error.None? <==> Authorized(sc, guarded, s)
    ensures error.None? || error.value.Refused? || error.value.ProtectedPreset?
  {
    if s.relationId !in sc.relations {
      return Some(Refused(UnknownRelation(s.relationId)));
    }
    if s.recordId == 0 && !AuthorizedRelation(sc, s.relationId, 2) {
      return Some(Refused(Unauthorized));
    }
    for k := 0 to |s.attributes|
      invariant forall j :: 0 <= j < k ==>
                  AuthorizedAttribute(sc, s.attributes[j].attributeId, 2) &&
                  (s.relationId, s.recordId, s.attributes[j].attributeId) !in guarded
    {
      var a := s.attributes[k];
      assert a in s.attributes;
      if !AuthorizedAttribute(sc, a.attributeId, 2) {
        return Some(Refused(Unauthorized));
      }
      if (s.relationId, s.recordId, a.attributeId) in guarded {
        return Some(ProtectedPreset);
      }
    }
    return None;
  }

  method Lowest(s: set<int>) returns (low: int)
    requires s != {}
    ensures low in s && forall i :: i in s ==> low <= i
  {
    LowestExists(s);
    low :| low in s && forall i :: i in s ==> low <= i;
  }

  // index i may be written, and can be
  ghost predicate Accepted(sc: Cache, guarded: Protection, sets: Request, i: int)
    requires i in sets
  {
    Authorized(sc, guarded, sets[i]) && !Unwritable(sc, sets, i) && !NamesColumnTwice(sc, sets, i)
  }

  // indexes are worked off from the lowest; only the recursion can be ahead
  ghost predicate Through(sc: Cache, guarded: Protection, sets: Request, todo: set<int>, p: Progress) {
    && todo <= sets.Keys
    && (forall i, j :: i in sets && i !in todo && j in todo ==> i < j)
    && (forall i :: i in sets && i !in todo ==> i in p.finished && Authorized(sc, guarded, sets[i]))
    && (forall i :: i in p.finished && i in todo ==> i in p.created)
  }

  lemma ThroughMore(sc: Cache, guarded: Protection, sets: Request, todo: set<int>, p: Progress, index: int, q: Progress)
    requires Through(sc, guarded, sets, todo, p) && Grows(p, q, index) && index in q.finished
    requires index in todo && (forall j :: j in todo ==> index <= j) && Authorized(sc, guarded, sets[index])
    ensures Through(sc, guarded, sets, todo - {index}, q)
  {
  }

  // one index of a request: checked, then written
  method SetIndex(writer: Writer, guarded: Protection, index: int, ghost top: int) returns (error: Option<WriteError>)
    requires writer.Valid({}) && writer.Ready({}, index)
    requires forall i :: i in writer.sets ==> i <= top
    modifies writer
    ensures error.None? ==> Authorized(writer.sc, guarded, writer.sets[index])
    ensures error.None? ==>
              writer.Valid({}) && Grows(old(writer.Reached()), writer.Reached(), index) &&
              index in writer.finished
    ensures error.Some? ==> NotAccepted(writer.sc, guarded, writer.sets, writer.database, error.value)
  {
    error := CheckAccess(writer.sc, guarded, writer.sets[index]);
    if error.Some? {
      assert !Accepted(writer.sc, guarded, writer.sets, index);
      return;
    }
    error := writer.SetForIndex(index, {}, top);
    if error.Some? {
      ErrorMeansNotAccepted(writer.sc, guarded, writer.sets, writer.database, error.value);
    }
  }

  // an error with its reason in the request, if the database accepts everything
  ghost predicate NotAccepted(sc: Cache, guarded: Protection, sets: Request, database: Database, error: WriteError) {
    && (Accepts(database) ==> exists i :: i in sets && !Accepted(sc, guarded, sets, i))
    && (error.DatabaseRefused? ==> !Accepts(database))
  }

  // Set_tx: a database that accepts all statements lets a request succeed if and only if every part of it
  // is allowed, names what the schema knows, and names no column twice. On success, the log holds a complete
  // write of the request, and the returned record IDs are those of the records that exist now.
  method SetRecords(sc: Cache, guarded: Protection, sets: Request, database: Database)
    returns (error: Option<WriteError>, ids: map<int, int>, log: seq<Write>)
    requires SourcesAreLower(sets)
    ensures error.None? ==> Complete(sc, sets, log) && forall i :: i in sets ==> Accepted(sc, guarded, sets, i)
    ensures error.None? ==> forall i :: i in sets ==> i in ids && ids[i] == RecordOf(sets, log, i) != 0
    ensures Accepts(database) ==> (error.None? <==> forall i :: i in sets ==> Accepted(sc, guarded, sets, i))
    ensures error == Some(DatabaseRefused) ==> !Accepts(database)
  {
    var writer := new Writer(sc, sets, database);
    var todo := sets.Keys;
    ghost var top := Highest(sets.Keys);
    while todo != {}
      invariant writer.sc == sc && writer.sets == sets && writer.database == database && writer.Valid({}) &&
                fresh(writer)
      invariant Through(sc, guarded, sets, todo, writer.Reached())
      decreases |todo|
    {
      var index := Lowest(todo);
      ghost var before := writer.Reached();
      error := SetIndex(writer, guarded, index, top);
      if error.Some? {
        return error, writer.indexRecordIds, writer.log;
      }
      ThroughMore(sc, guarded, sets, todo, before, index, writer.Reached());
      todo := todo - {index};
    }
    AllFinished(sc, sets, writer.Reached(), writer.log);
    return None, writer.indexRecordIds, writer.log;
  }

  lemma ErrorMeansNotAccepted(sc: Cache, guarded: Protection, sets: Request, database: Database, error: WriteError)
    requires Explained(sc, sets, database, Some(error))
    ensures NotAccepted(sc, guarded, sets, database, error)
  {
    if error.Refused? {
      var i :| i in sets && Unwritable(sc, sets, i);
      assert !Accepted(sc, guarded, sets, i);
    } else if error.DuplicateColumn? {
      var i :| i in sets && NamesColumnTwice(sc, sets, i);
      assert !Accepted(sc, guarded, sets, i);
    }
  }

  lemma AllFinished(sc: Cache, sets: Request, p: Progress, log: seq<Write>)
    requires Sound(sc, sets, p, log, {}) && forall i :: i in sets ==> i in p.finished
    ensures Complete(sc, sets, log)
    ensures forall i :: i in sets ==> !Unwritable(sc, sets, i) && !NamesColumnTwice(sc, sets, i)
    ensures forall i :: i in sets ==> i in p.ids && p.ids[i] == RecordOf(sets, log, i) != 0
  {
    forall i | i in sets
      ensures Done(sc, sets, p, log, {}, i)
    {
    }
    forall i | i in sets
      ensures !NamesColumnTwice(sc, sets, i)
    {
      CompleteNamesNoColumnTwice(sc, sets, log, i);
    }
  }
}
