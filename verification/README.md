# REI3: a verified model of its query compiler, writes, transfers, scheduler and cluster

REI3 lets users build business applications in the browser. The parts of its backend that hold most of its
logic are modelled here in Dafny, with the database reduced to maps, sequences and a savepoint stack, and
properties of them are proved for all inputs, all runs or all interleavings.

| part | files | what is proved |
|---|---|---|
| Query compiler | DataRequest, SqlTree, SchemaCache, QueryCompiler, QueryBuilding, QueryReading, QueryPlaceholders | the compiled text says what the request says, and argument lists, placeholders and the count query agree, at every nesting depth |
| WHERE clauses | WhereGrammar, WhereMeaning, PolicyProtection, DataQuery, DataQueryReading, DataQueryMeaning, DataQueryArguments | what a clause means in three-valued logic, read with AND before OR, and exactly when its records obey the policy |
| Joins | JoinPolicies | exactly when the records of a joined relation obey its policy, for all data and any chain of joins |
| Data SET | DataSets, DataSetsProperties, DataSetReferences, References | the recursive write creates each record once and wires up references; exactly which requests succeed; relationship values are synchronised |
| Import rows | RecordLookup | the lookup loop reaches the least fixpoint |
| Modules | ModuleGraph, ModuleTransfer | dependency order of import and export, reachable changed modules, cycles included |
| Module import | ImportLoop, ImportContents, ImportProperties | safety and exact convergence of the loop with savepoints |
| Scheduler | Calendar, Schedule, Runs, SchedulerTasks | next runs in the Gregorian calendar; the task list under any interleaving |
| Cluster | Runs, Cluster | one master row, and every node follows it |
| Small loops | QueryBuilder, Backup, Runs, Thumbnails, CopyIds | text substitution, retention of backups, the thumbnail queue, copies of queries and columns |

Where the program changes things step by step, so does the model: classes with the program's fields and
methods whose contracts equate the new state with a function of the old one. The theorems are lemmas about
these functions. Processes that work at the same time (scheduler, cluster, thumbnails) are state machines:
each section under a lock, and each SQL statement, is one step, and the theorems are about all sequences of
steps (module Runs).

Results that may surprise a maintainer:

- An unknown aggregator over a sub query with values drops the sub query's text but keeps its arguments. The
  placeholders of a data query are exactly `$1..$n` if and only if `Lost(q) == 0`, that is, if no such sub
  query has values (data/data_sql/data_sql.go:14-65).
- Filter brackets that close before they open can take the policy into one operand of an OR
  (`PolicyProtection.UnnestedFiltersDiffer`). Every record that a readable clause accepts fulfils the policy
  if and only if there is no policy, or no filter but the first is connected with OR outside all brackets
  (`PolicyProtection.PolicyHoldsIffNoOuterOr`).
- The policy of a joined relation is part of the join condition. A RIGHT or FULL join returns records that fail
  it, beside nulls (`JoinPolicies.RightJoinEscapesPolicy`), unless an INNER or RIGHT join behind it can match
  none of the records beside them. This is exact for any chain of joins whose attributes do connect the
  relations (`JoinPolicies.JoinObeysPolicyIff`); INNER and LEFT joins let no such record pass
  (`JoinPolicies.InnerAndLeftObeyPolicy`).
- A record is refused if its statement names a column twice: an attribute given twice, or two with the same
  name, even of another relation; a relationship column that is given, even as nil, and also filled in by a
  join; or one filled in by two joins. File attributes, logs and encryption keys aside, a request succeeds with
  a database that refuses nothing if and only if it is authorised, names only what the schema knows, partner
  attributes of relationship values included, and has no such record (`DataSets.SetRecords`,
  `DataSetsProperties.NilReferenceIsRejected`, `DataSetsProperties.SharedReferenceIsRejected`,
  `DataSetsProperties.SameNameIsRejected`).
- Relationship values of a 1:1 relationship, or of a column that may not be empty, are refused if and only if
  the result would break the constraint (`References.RespectsIff`).
- A task that starts gets a second execution at the same time if and only if an execution from before a
  reload is still in flight for it and none from after it is (`SchedulerTasks.SecondExecutionIffOlderInFlight`).
  A remembered next execution delays tasks that have become due since (`SchedulerTasks.DueTaskStarts`,
  `SchedulerTasks.DueTaskIsDelayed`).
- A monthly schedule keeps its day n months later if and only if that month has both the scheduled day and the
  day of the last run (`Schedule.MonthlyRunOnDay`). Last run on January 31, every month: the next run is on
  March 31 (`Schedule.RunSkipsFebruary`).
- A replaced cluster master goes on acting as master until it reads its events: a working node acts without
  the role if and only if the last of its pending news takes the role away
  (`Cluster.ActsWithoutRoleIffNewsPending`, `Cluster.TakeoverLeavesTwoActing`).
- With no version to keep, the cleanup of a backup job removes an entry of another job as well; it leaves them
  alone if and only if a version is to be kept (`Backup.OthersStayIffSomeKept`). Such a cleanup can take the
  only backup there is (`Backup.CleanupTakesLastBackup`).
- If the prerequisites of a module import can be met at all, it commits if and only if every entity but
  unprotected presets is set in time: no chain of its prerequisites steps back ten times, and one that steps
  back nine times does not lead to an unprotected preset that is still missing in the last pass
  (`ImportProperties.CommitsIffInTime`). Eleven protected presets that each need the next one cannot be imported
  (`ImportProperties.BackwardChainCommitsIffShort`).
- A copied query is written over the filters and choices of the original, which keeps only its ID
  (`CopyIds.Copier.CopyHeldQuery`).

## Model

| member | source | states |
|---|---|---|
| SchemaCache.GetPolicyFunctionNames | data/data.go:66-120 | the policy loop returns what the list of policies decides, with the same errors |
| SchemaCache.FirstMatchingPolicyDecides | data/data.go:66-120 | the first policy that fits a role of the login and the action decides alone, even if it names no function |
| SchemaCache.PolicyClauses | data/data.go:160-189 | policy clauses consist of AND and policy calls only, so they bring no argument and no OR |
| SchemaCache.GetPolicyFilter | data/data.go:160-189 | the policy filter is nothing without policies, an error without access, else the clauses of the deciding policy |
| SchemaCache.FilterOfDecidingPolicy | data/data.go:66-189 | the blacklist and the whitelist function of the first fitting policy, and no other, are called, each exactly if the policy names one, with the names of function and module |
| SchemaCache.NoFilterWithoutFit | data/data.go:66-189 | without a fitting policy the filter is empty |
| SchemaCache.AuthorizedIffGranted | data/data.go:20-42 | an attribute may be used if and only if the level granted for itself, or else for its relation, suffices |
| QueryCompiler.GetBrackets | data/data_get.go:898-915 | as many brackets as counted, on the right side, none for a negative count |
| QueryBuilding.ArgumentValue | data/data_get.go:753-770 | the value sent for a filter side: wildcards for LIKE, text for booleans |
| QueryBuilding.BuildComp | data/data_get.go:676-792 | one comparison operand, appending to both argument lists, equals the recursive specification, errors included |
| QueryBuilding.BuildWhere | data/data_get.go:660-818 | one filter line with both operands equals the specification |
| QueryBuilding.BuildExpression | data/data_get.go:361-397 | one expression, with its sub query and no count arguments, equals the specification |
| QueryBuilding.BuildJoins | data/data_get.go:596-658 | the joins fill the relation of each index and yield their clauses, or fail as specified |
| QueryBuilding.BuildQuery | data/data_get.go:274-501 | the mutual recursion over shared argument lists equals the specification: query, count query, both lists |
| QueryBuilding.Get | data/data_get.go:27-47 | a request is compiled with two empty argument lists at nesting level 0 |
| QueryReading.QueryReads | data/data_get.go:274-501 | at every depth the text of a compiled query says what the request says: joins, comparisons operand by operand, expressions, sub queries, and each number the value sent for it in the final argument list |
| QueryReading.CompiledLinesRead | data/data_get.go:660-818 | each filter line has the operator of its filter, reads side 0 on the left and side 1 on the right, in brackets exactly for array operators, with numbers of the final argument list |
| QueryReading.CountReads | data/data_get.go:401-501 | the count query counts the records of the source relation under the same joins and conditions; there is one for the main query only |
| QueryReading.ReadsWhatIsGranted | data/data_get.go:280-288 | every attribute that a compiled request reads was granted to the login for reading |
| QueryPlaceholders.CompPlaceholders | data/data_get.go:676-792 | an operand appends exactly its values and holds their numbers, at any depth |
| QueryPlaceholders.WherePlaceholders | data/data_get.go:660-818 | so does a filter line |
| QueryPlaceholders.ExpressionPlaceholders | data/data_get.go:361-397 | so does an expression, except for what an unknown aggregator loses; at the top it leaves the count arguments alone |
| QueryPlaceholders.QueryPlaceholdersAt | data/data_get.go:274-501 | at any nesting level, after any earlier arguments: exactly the request's values are appended, no number is used twice, exactly Lost(q) are missing |
| QueryPlaceholders.DataQueryPlaceholders | data/data_get.go:274-501 | the data query uses each of $1..$n once if and only if Lost(q) is 0 |
| QueryPlaceholders.CountQueryPlaceholders | data/data_get.go:401-501 | the count arguments are a prefix of the arguments, namely the filters' values, and the count query uses exactly $1..$m if and only if the filters lose nothing |
| QueryPlaceholders.KnownAggregatorsUseEveryArgumentOnce | data/data_sql/data_sql.go:14-65 | with the nine known aggregators both queries use every argument exactly once, at any nesting depth |
| QueryPlaceholders.UnknownAggregatorDropsSubQuery | data/data_sql/data_sql.go:14-65 | a request with an unknown aggregator that sends one argument and uses none |
| WhereGrammar.ReadableIffScanned | data/data_get.go:324-362 | a token sequence has a meaning, with AND binding tighter than OR, if and only if a left-to-right scan accepts it |
| WhereGrammar.BracketedThenAnd | data/data_get.go:338-355 | a bracketed clause followed by AND operands is the conjunction of both |
| WhereMeaning.ScanIsNested | data/data_get.go:811-815 | scanning filter lines is counting their brackets |
| WhereMeaning.FiltersReadableIffNested | data/data_get.go:811-815 | filter lines have a meaning of their own if and only if their brackets are nested |
| WhereMeaning.WhereIsFiltersAndPolicy | data/data_get.go:324-355 | at every query level the WHERE clause means (all own filters) AND the policy, whatever the comparisons evaluate to, if and only if the filters' brackets are nested; each own line compares the sides of its filter in their order |
| WhereMeaning.WhereIsPolicy | data/data_get.go:340-362 | without filters the clause is the policy alone, or missing |
| WhereMeaning.AppendedFiltersAreConjuncts | data/data_query/data_query.go:112-128 | filters appended with AND to an enclosed block are conjuncts of the whole block |
| WhereGrammar.ConjunctionIffNoOuterOr | data/data_get.go:324-362 | a readable clause is one conjunction if and only if no OR stands outside all brackets |
| PolicyProtection.OneConjunctionObeysPolicy | data/data_get.go:338-355 | a policy appended to one conjunction is a conjunct of the whole clause |
| PolicyProtection.OuterOrIsWritten | data/data_get.go:324-338 | an OR outside all brackets is the connector of a filter line at depth 0 |
| PolicyProtection.PolicyHoldsIffNoOuterOr | data/data_get.go:324-355 | at every query level, if the clause is readable: whatever it accepts fulfils the policy, if and only if there is no policy or no filter but the first is connected with OR at bracket depth 0 |
| PolicyProtection.UnnestedFiltersDiffer | data/data_get.go:324-355 | a compiled request of a relation with a policy whose clause is true although the policy is not |
| JoinPolicies.QueryIsCompiled | data/data_get.go:596-652 | the clauses are the written joins in their order: each joins the relation that its attribute refers to, if the attribute belongs to the relation joined from, and else the relation of the attribute, under that relation's own policy for reading |
| JoinPolicies.InnerAndLeftObeyPolicy | data/data_get.go:642-655 | whatever is joined behind it, an INNER or LEFT join lets no record pass that its policy shuts out |
| JoinPolicies.ShutOutRowsLeak | data/data_get.go:642-655 | a row with a record that the policy of its join shuts out: the join is RIGHT or FULL, and every record beside it was reached from it along relationships |
| JoinPolicies.JoinObeysPolicyIff | data/data_get.go:596-658 | at every query level, for all data: the records of a joined relation obey its policy if and only if there is none, the join is INNER or LEFT, or an INNER or RIGHT join behind it cannot match |
| JoinPolicies.RightJoinEscapesPolicy | data/data_get.go:636-655 | a compiled request without filters that returns a record of a joined relation that its policy shuts out |
| DataQuery.ConvertFilters | data/data_query/data_query.go:59-129 | every stored filter is converted in its place, with one bracket more at both ends of the list |
| DataQuery.ConvertQueryToDataFilter | data/data_query/data_query.go:59-129 | the loop with its recursion into sub queries equals the conversion |
| DataQuery.ProcessSide | data/data_query/data_query.go:64-110 | a filter side becomes the value its content stands for, or its attribute or sub query |
| DataQueryReading.ConvertedValueStands | data/data_query/data_query.go:75-110 | the value for each content: the current date is the first second of the day of now, the current time what has passed since then, both moved by the offset; preset record, login, language, role |
| DataQueryReading.ConvertedFiltersStand | data/data_query/data_query.go:38-129 | at any depth the request asks for what the stored query asks for: attributes, indexes, values, connectors, operators, sub queries with their aggregators, in their order |
| DataQueryReading.ConvertedColumnStands | data/data_query/data_query.go:12-36 | a column reads its attribute, or aggregates a sub query that reads it under the stored filters |
| DataQueryMeaning.ConvertedIsNested | data/data_query/data_query.go:112-128 | a converted nested list followed by nested filters is nested |
| DataQueryMeaning.ConvertedQueryIsOneConjunct | data/data_query/data_query.go:112-128 | a stored query, filters appended to it and the policy are three conjuncts, even if the stored query is a chain of ORs |
| DataQueryArguments.StoredSubQueryLosesNothing | data/data_query/data_query.go:38-57 | a sub query converted from a stored filter loses no value, at any depth |
| DataQueryArguments.ColumnLosesByItsAggregatorOnly | data/data_query/data_query.go:12-36 | a converted column loses values if and only if it is a sub query with values under an unknown aggregator |
| DataQueryArguments.StoredListUsesEveryArgumentOnce | data/data_query/data_query.go:12-129 | a list of stored filters and columns with known aggregators uses every argument exactly once |
| DataSets.CheckAccess | data/data_set.go:48-89 | a data set passes if and only if its relation is known, a new record and every attribute may be written, and no value of a protected preset is touched |
| DataSets.Writer.CollectValues | data/data_set.go:180-238 | the columns of a record, which are all attributes but other relations' relationships and files, and the record IDs given for those relationships |
| DataSets.Writer.RelationshipValueSet | data/data_set.go:293-302 | whether the first value given for the attribute is not nil |
| DataSets.Writer.SetForIndex | data/data_set.go:154-495 | the recursion ends with the index done, its statement and references right, earlier records untouched, and only higher indexes created on the way; an error has its reason in the request or in the database |
| DataSets.Writer.Update | data/data_set.go:240-261 | an existing record is updated with its own columns and the policy filter of the relation |
| DataSets.Writer.CreateRecord | data/data_set.go:262-355 | a new record is inserted after the records it refers to |
| DataSets.Writer.Assign | data/data_set.go:376-493 | relationship values are assigned in their order, if their attributes, relations, modules and, with values, partner attributes are known |
| DataSets.Writer.Finish | data/data_set.go:376-495 | an index is finished with its references |
| DataSets.Writer.LinkPartners | data/data_set.go:262-331 | for any order of the map: the references of a new record are exactly those of its joins, to existing records |
| DataSets.Writer.LinkToChild | data/data_set.go:272-311 | a record joined from this one is created first if this side holds the reference, and then referred to |
| DataSets.Writer.LinkToSource | data/data_set.go:313-330 | the record this one is joined from is referred to if this side holds the reference |
| DataSets.Writer.LinkTo | data/data_set.go:265-331 | what one other index contributes, whichever side joins |
| DataSets.SetRecords | data/data_set.go:28-150 | with a database that refuses nothing: success if and only if every data set is authorised, writable, its references included, and names no column twice. Success means that the request is written completely and the returned IDs exist |
| DataSets.CompleteNamesNoColumnTwice | data/data_set.go:262-355 | no complete log exists for a request with a record that names a column twice |
| DataSetsProperties.EachIndexWrittenOnce | data/data_set.go:45-150 | one insert for a new record, one update for an existing one with columns, references alone for one with nothing else, else nothing |
| DataSetsProperties.NewRowsAreNewDataSets | data/data_set.go:45-150 | the number of new rows is the number of data sets without a record |
| DataSetsProperties.JoinedRecordsAreLinked | data/data_set.go:262-331 | a record is inserted with the existing record of its partner if and only if it is new and holds the attribute of the join, and no value was given for it (the side joined from) or the relations differ (the joined side) |
| DataSetsProperties.LinksComeFromJoins | data/data_set.go:262-331 | inserts refer to nothing but partners of joins, by the join's attribute |
| DataSetsProperties.SuppliedIsGiven | data/data_set.go:293-302 | a value counts as given if and only if the first one for the attribute is not nil |
| DataSetsProperties.AuthorizedIffGrantedToWrite | data/data_set.go:48-89 | a data set is authorised if and only if its relation is known, new records of it and all its attributes were granted for writing, and it touches no protected preset value |
| DataSetReferences.WritableIffKnown | data/data_set.go:162-458 | a data set can be written, as far as the schema is concerned, if and only if its relation, module, attributes and joins are known, so are relation, module and partner attribute of its references, and the policy for updates can be read |
| DataSetReferences.TwiceIffSameName | data/data_set.go:226-331 | a statement names a column twice if and only if two attributes for columns of one name are given, or a join fills in a column of the name of such an attribute or of another join's |
| DataSetReferences.ReferencesAreTheValues | data/data_set.go:180-223 | the references of a record are the values given for relationships of other relations, in their order, with the record IDs that each value names |
| DataSetReferences.ColumnsAreTheValues | data/data_set.go:180-238 | its columns are all other values but those for files, as given and in their order |
| DataSetsProperties.UpdatesObeyPolicy | data/data_set.go:240-261 | every update is of the record that the request names, under the blacklist and whitelist of the first policy for updates that fits, and under none without one |
| DataSetsProperties.NilReferenceIsRejected | data/data_set.go:293-355 | an authorised, writable request that gives nil for a relationship its join fills in, and so names the column twice |
| DataSetsProperties.SharedReferenceIsRejected | data/data_set.go:262-331 | another one without any value, with two joins by one attribute of a new record |
| DataSetsProperties.SameNameIsRejected | data/data_set.go:226-237 | and one with two different attributes of the same name, one of them of another relation |
| References.PartnerRelation.SetReferences | data/data_set.go:392-440 | the two UPDATEs, or the one for an empty list, set the references as specified; they succeed if and only if the result keeps the column's constraints |
| References.RespectsIff | data/data_set.go:418-440 | which is so if and only if no record has to give up a reference that it needs, and at most one given record exists for a 1:1 relationship |
| References.AssignedAreTheValues | data/data_set.go:392-440 | afterwards exactly the given existing records refer to this one, and references of all others are as before |
| DataSetReferences.GivenRecordsRefer | data/data_set.go:376-440 | once the references of a complete write are done, exactly the existing records that were given last for a relationship of another relation refer to the record by it |
| References.UndoneIffNothingTaken | data/data_set.go:392-440 | setting the former references restores the former state if and only if none was taken from another record |
| References.NmRelation.Delete | data/data_set.go:466-474 | all rows of one pair are removed and no other |
| References.NmRelation.RemoveOld | data/data_set.go:460-475 | rows of partners that are not wanted go, all others stay as often as they were |
| References.NmRelation.AddNew | data/data_set.go:477-491 | missing partners are added as often as they are given, or a partner that does not exist fails the request |
| References.NmRelation.SetReferences | data/data_set.go:392-492 | every row is there as often as specified; it fails if and only if a given partner does not exist |
| References.PartnersAreTheValues | data/data_set.go:441-492 | afterwards the partners are exactly the given ones, old ones as often as before, new ones as often as given; other records' rows are unchanged, and a second call changes nothing |
| RecordLookup.ResolveQueryLookups | data/data_import/data_import.go:22-49 | a join gets the attributes of the last unique index that a lookup names for it, and none without one |
| RecordLookup.NamedIndexIsUsed | data/data_import/data_import.go:22-49 | where each join, lookup and index is there once: a join gets the attributes of the index of its relation that its lookup names, and none otherwise |
| RecordLookup.KeyIsAllParts | data/data_import/data_import.go:133-178 | a lookup has its key if and only if all its attributes are available, in the order of the index |
| RecordLookup.PartIsOffered | data/data_import/data_import.go:133-178 | a part of a key is the first value of the row for the attribute, or, for a relationship, the found record of the first join of the related relation next to this one on either side; and nothing else is |
| RecordLookup.FullKeysAreLookedUp | data/data_import/data_import.go:133-210 | in a closed solution every join for which the row offers a full key has the record that its own relation holds for that key, or none if there is none |
| RecordLookup.FindKey | data/data_import/data_import.go:133-178 | the loop over the index attributes finds exactly this key, or fewer parts |
| RecordLookup.LookUpPass | data/data_import/data_import.go:117-210 | a pass looks up at least one join more, or nothing is left to look up |
| RecordLookup.LookUpRecords | data/data_import/data_import.go:105-215 | len(joins)+1 passes always reach the least solution, and no join is looked up twice |
| RecordLookup.LeastSolutionIsUnique | data/data_import/data_import.go:105-215 | there is only one such solution |
| ModuleGraph.OrderedIsBehindOnlyOnCycles | transfer/transfer_import.go:680-703 | in such an order a dependency comes later only if it leads back |
| ModuleGraph.DependenciesFirst | transfer/transfer_import.go:680-703 | without cycles every dependency comes first |
| ModuleTransfer.ImportOrder.AddModule | transfer/transfer_import.go:682-699 | the recursive closure adds what is missing of a module and its dependencies, in order, and ends on any graph |
| ModuleTransfer.OrderModules | transfer/transfer_import.go:667-703 | the order is a permutation of the import; dependencies come later only on cycles |
| ModuleTransfer.ChangeCheck.CheckRecursive | transfer/transfer.go:90-122 | the closure checks a module and everything it leads to, cycles included, or meets one that cannot be checked |
| ModuleTransfer.GetModuleChangedWithDependencies | transfer/transfer.go:84-126 | succeeds if and only if all reachable modules can be checked, and then has exactly them as keys, with their own results, each checked once |
| ModuleTransfer.Export.ExportModule | transfer/transfer_export.go:62-100 | the recursion appends dependencies before a module and never repeats one |
| ModuleTransfer.ExportModules | transfer/transfer_export.go:62-100 | each reachable module once, dependencies first without cycles; succeeds if and only if all can be exported |
| ImportLoop.Import.CheckRunAndSave | transfer/transfer_import.go:538-554 | an entity is attempted on the first run or if it is skipped, behind a savepoint |
| ImportLoop.Import.CheckResultAndApply | transfer/transfer_import.go:556-577 | success releases the savepoint and clears the skip; failure restores the state at the newest savepoint, which stays, and skips the entity |
| ImportLoop.Import.ImportEntities | transfer/transfer_import.go:182-534 | a pass equals its specification, whatever old savepoints are on the stack |
| ImportLoop.Import.ImportPass | transfer/transfer_import.go:120-143 | so does a pass over all modules |
| ImportLoop.ImportModules | transfer/transfer_import.go:98-160 | commit with an empty skip set after at most ten passes, abort otherwise |
| ImportContents.ModuleIsImported | transfer/transfer_import.go:182-534 | the entities of a module are the module and each member of each of its lists, as often as it is there, presets with their flags, and nothing else |
| ImportContents.AllModulesAreImported | transfer/transfer_import.go:120-143 | the entities of an import are those of all modules |
| ImportContents.KeysFirstPresetsLast | transfer/transfer_import.go:258-531 | within a module, primary keys come before other attributes, and presets last |
| ImportContents.CommitHasAllMembers | transfer/transfer_import.go:98-160 | if the IDs are distinct, a committed import has accepted every member of every module exactly once |
| ImportProperties.SkippedAreLatestFailures | transfer/transfer_import.go:538-577 | the skip set is always exactly the entities whose latest attempt failed |
| ImportProperties.AcceptedExactlyOnce | transfer/transfer_import.go:538-577 | after every pass an entity is skipped and was never accepted, or was accepted exactly once |
| ImportProperties.LastPassAcceptsOptional | transfer/transfer_import.go:504-531 | the last pass does with an unprotected preset what it does without it, except that it is no longer skipped |
| ImportProperties.PassesSetExactly | transfer/transfer_import.go:101-149 | which entities are in the transaction after n passes |
| ImportProperties.CommitsIffAllSet | transfer/transfer_import.go:101-149 | commit if and only if every entity but unprotected presets is set by the tenth pass |
| ImportProperties.SetByIffLate | transfer/transfer_import.go:101-149 | before the last pass: an entity with at most k steps back on any chain of prerequisites is set by pass k+1, and not before |
| ImportProperties.SetByTenthIffInTime | transfer/transfer_import.go:101-149 | by the last pass exactly the entities in time are set, with or without unprotected presets |
| ImportProperties.CommitsIffInTime | transfer/transfer_import.go:98-149 | commit if and only if every entity but unprotected presets is in time: fewer than nine steps back, or nine if it is no unprotected preset and its earlier prerequisites are in time themselves |
| ImportProperties.BackwardChainCommitsIffShort | transfer/transfer_import.go:98-149 | protected presets that each need the next one are imported if and only if they are at most ten |
| ImportProperties.EveryPassMakesProgress | transfer/transfer_import.go:101-149 | every repeated pass that starts with skipped entities ends with strictly fewer |
| Calendar.YearLength | scheduler/scheduler.go:515-554 | 365 days, or 366 in a leap year of the Gregorian rule |
| Calendar.MonthsApart | scheduler/scheduler.go:515-554 | months start 28 to 31 days apart |
| Calendar.FoundOnce | scheduler/scheduler.go:515-554 | a day belongs to one month |
| Calendar.DatesRoundTrip | scheduler/scheduler.go:515-554 | regular dates and day numbers correspond one to one |
| Calendar.LocalRoundTrip | scheduler/scheduler.go:515-554 | local times and Unix times correspond in a fixed zone |
| Schedule.GetNextRunFromSchedule | scheduler/scheduler.go:494-555 | the switches and the date arithmetic step by step equal the specification |
| Schedule.NextRunIsLater | scheduler/scheduler.go:494-555 | every recurring schedule runs strictly later than it did last |
| Schedule.RunsAtTime | scheduler/scheduler.go:550-554 | it runs at the scheduled hour, minute and second of local time |
| Schedule.WeeklyRun | scheduler/scheduler.go:517-541 | on its weekday, or without one on that of the last run, in the week n weeks after that of the last run |
| Schedule.EvenlySpaced | scheduler/scheduler.go:501-513 | k runs by the second, minute or hour take exactly k intervals of 1, 60 or 3600 seconds |
| Schedule.OnceRunsOnce | scheduler/scheduler.go:496-500 | what runs once runs when it is looked at, and never again |
| Schedule.DailyRun | scheduler/scheduler.go:517-519 | n days after the last run, to the second |
| Schedule.MonthlyRun | scheduler/scheduler.go:522-544 | atDay - 1 days after the start of the month n months later, or of the month after that if the former does not have the day of the last run |
| Schedule.MonthlyRunOnDay | scheduler/scheduler.go:522-544 | n months later on the scheduled day, if and only if that month has this day and the day of the last run |
| Schedule.RunSkipsFebruary | scheduler/scheduler.go:522-544 | a monthly task that last ran on January 31, 2023 runs next on March 31 |
| Schedule.YearlyRun | scheduler/scheduler.go:524-548 | on its day counted from January 1, n years later |
| Schedule.GregorianMonths | scheduler/scheduler.go:515-554 | the Gregorian calendar meets what the schedules need |
| Schedule.GetNextRunScheduleFromTask | scheduler/scheduler.go:475-491 | the earliest run of a task's schedules, for any order of them |
| SchedulerTasks.Scheduler.RequestReload | scheduler/scheduler.go:104-109 | the next tick reloads the list |
| SchedulerTasks.Scheduler.RunTasksBySchedule | scheduler/scheduler.go:115-174 | a tick reloads, finds the earliest run and spawns exactly the due tasks |
| SchedulerTasks.Scheduler.FindEarliest | scheduler/scheduler.go:138-156 | the earliest planned run of the idle tasks |
| SchedulerTasks.Scheduler.SpawnDue | scheduler/scheduler.go:160-174 | exactly the tasks that are due |
| SchedulerTasks.Scheduler.RunTaskDirectly | scheduler/scheduler.go:177-208 | a system task by name, or the last task with the schedule |
| SchedulerTasks.TriggerStartsWanted | scheduler/scheduler.go:177-208 | a trigger starts the first system task of the name, or the last other task of the function that has the schedule, or nothing; the schedule is noted at all tasks that have it |
| SchedulerTasks.Scheduler.BeginTask | scheduler/scheduler.go:210-224 | gives up on a running task, else marks it and copies it |
| SchedulerTasks.Scheduler.FinishTask | scheduler/scheduler.go:225-271 | the copy replaces the task unless the list was reloaded |
| SchedulerTasks.RunningMeansOneExecution | scheduler/scheduler.go:115-271 | under any interleaving a task is marked as running exactly if one execution of the current load is in flight for it; executions of older loads leave the list alone |
| SchedulerTasks.ReloadAllowsSecondExecution | scheduler/scheduler.go:115-271 | a run that leads to two executions of one task at a time |
| SchedulerTasks.SecondExecutionIffOlderInFlight | scheduler/scheduler.go:115-271 | in every reachable state, a start leads to two executions of a task if and only if one of an older load is in flight for it and none of the current load |
| SchedulerTasks.EarliestIsLowest | scheduler/scheduler.go:138-156 | no idle task is planned before the earliest run |
| SchedulerTasks.DueTaskStarts | scheduler/scheduler.go:115-174 | a tick starts an idle, due task if and only if no later time is remembered |
| SchedulerTasks.ReloadStartsDue | scheduler/scheduler.go:130-174 | a tick that reloads the list starts every task that is due, whatever time was remembered |
| SchedulerTasks.DueTaskIsDelayed | scheduler/scheduler.go:115-174 | a run after which a task is idle and due, and a tick starts nothing |
| Cluster.Database.StartNode | cluster/cluster.go:30-90 | a starting node takes its own row without the master role, or a new row |
| Cluster.Database.DeleteMissedEvents | cluster/cluster.go:92-97 | events from before the start are dropped |
| Cluster.Database.StopNode | cluster/cluster.go:106-114 | a stopping node gives up the role and is not running |
| Cluster.Database.CheckInNode | cluster/cluster_tasks.go:20-56 | the check-in is stored; the node asks for the role if the master is overdue |
| Cluster.Database.MasterRoleRequest | db/initialize/initialize.go:1202-1241 | the statements in order: nothing if a master is present, else the role and one event for every node |
| Cluster.Database.CreateEventForNodes | cluster/cluster.go:160-215 | other events reach the named nodes, or all but the sender, that checked in within an hour |
| Cluster.Database.ClusterProcessEvents | scheduler/scheduler_cluster.go:17-120 | events are taken off and applied in their order |
| Cluster.OneMasterAndNodesFollow | db/initialize/initialize.go:1202-1241 | in every reachable state at most one row is master, and each running node will believe, after its pending events, what its row says |
| Cluster.ActsWithoutRoleIffNewsPending | cluster/cluster_tasks.go:245-252 | in every reachable state, a working node that acts as master lacks the role if and only if its last pending news takes it away |
| Cluster.TwoActingMastersMeansStale | cluster/cluster_tasks.go:245-252 | of two working nodes that act as master, one has such news pending |
| Cluster.TakeoverLeavesTwoActing | cluster/cluster_tasks.go:35-54 | a run in which an outdated master and the new one both act |
| Cluster.RoleChangesIffMasterMissing | db/initialize/initialize.go:1209-1241 | after a request the asking node alone will believe to be master, if and only if it was already or every master's last check-in is as long ago as configured |
| Cluster.OverdueMasterIsReplaced | cluster/cluster_tasks.go:35-54 | a node that finds the master overdue gets the role alone, and acts as master after its next events |
| Cluster.AsksIffOverdue | cluster/cluster_tasks.go:35-54 | a check-in asks for the role if and only if the last check-in of the master, or time 0 without one, is longer ago than configured |
| Cluster.CheckInKeepsRole | db/initialize/initialize.go:1209-1224 | a master that has checked in keeps the role, whoever asks before the configured time is over |
| Cluster.StoppedMasterIsReplaced | cluster/cluster.go:106-114 | the role of a stopped master goes to the next node that asks, at any time |
| Cluster.NewsReachesRecentNodes | cluster/cluster.go:160-215 | other news reaches exactly the target nodes that checked in within an hour, behind what waits for them |
| Cluster.RestartMissesNothing | cluster/cluster.go:30-97 | in every reachable state a node that ends can start again: without the role, not acting, and without what it missed |
| Cluster.RemovedNodeStartsAnew | cluster/cluster.go:30-90 | a removed node starts with a new row and takes part at once |
| QueryBuilder.SubstitutionKeepsLiterals | tools/queryBuilder.go:105-126 | a text is its literals with the names in between, and the substitution changes the names alone |
| QueryBuilder.ReplaceHitsMatch | tools/queryBuilder.go:119-124 | replacing the first occurrence of a match hits the match itself |
| QueryBuilder.NextMatchBehind | tools/queryBuilder.go:119-124 | a placeholder in its place creates no new match |
| QueryBuilder.ReplacementIsOneStep | tools/queryBuilder.go:113-126 | one replacement is one step of the simultaneous left-to-right substitution |
| QueryBuilder.DecimalReadsBack | tools/queryBuilder.go:122 | a placeholder's digits read as its number |
| QueryBuilder.PlaceholderIsNumbered | tools/queryBuilder.go:113-126 | the k-th placeholder is a dollar sign and the digits of the k-th number, or a question mark |
| QueryBuilder.ReplaceNames | tools/queryBuilder.go:107-126 | the loop of replacements equals the substitution, for every text, and collects the values in that order |
| QueryBuilder.WhereLines | tools/queryBuilder.go:103-134 | numbering and values run through all parts, or the first unregistered name is reported |
| QueryBuilder.Builder.UseDollarSigns | tools/queryBuilder.go:171-174 | numbering starts at 1 |
| QueryBuilder.Builder.AddPara | tools/queryBuilder.go:51-57 | a value is registered under its name |
| QueryBuilder.Builder.GetQuery | tools/queryBuilder.go:88-134 | succeeds if and only if all names have values; clause, ordered values and next number are as specified |
| QueryBuilder.LineOfPart | tools/queryBuilder.go:103-134 | a part is written with all its text kept, and its names replaced by the numbers that follow those of the parts before it |
| QueryBuilder.PlaceholdersNumberTheValues | tools/queryBuilder.go:103-134 | the k-th placeholder of a part carries the number of the value that is registered under the k-th name of the part |
| Backup.TocFile.Oldest | backup/backup.go:123-131 | the job's entry with the lowest timestamp |
| Backup.TocFile.JobCleanup | backup/backup.go:102-156 | with a version to keep: other jobs keep everything, the newest countKeep-1 versions stay, in the file too if it fails midway; without one: all versions of the job go and one entry more |
| Backup.OthersStayIffSomeKept | backup/backup.go:118-156 | a cleanup leaves the entries of other jobs alone if and only if a version is to be kept |
| Backup.CleanupTakesLastBackup | backup/backup.go:118-156 | without any version to keep, the only backup, of another job, is gone after a cleanup |
| Backup.SwapRemoves | backup/backup.go:147-149 | swapping with the last entry and shortening removes exactly one entry |
| Backup.TocFile.RunOne | backup/backup.go:57-82 | nothing before the interval is over, else cleanup and one new version; if it fails, at most the cleanup is in the file, with or without a version to keep |
| Backup.TocFile.Run | backup/backup.go:27-100 | at most one job a run, monthly before weekly before daily; whatever its outcome, the file takes a step that runs may take |
| Backup.LongestIntervalFirst | backup/backup.go:57-100 | of the active jobs whose versions are all at least 30, 7 or 1 days old, the one with the longest interval runs, and none if there is none |
| Backup.RunsKeepHealthy | backup/backup.go:27-205 | over any such runs, failed ones included, the file never has more versions of a job than are to be kept, and they stay its interval apart |
| Thumbnails.Imager.CheckFailedBefore | data/data_image/data_image.go:50-56 | files that failed are refused |
| Thumbnails.Imager.CreateThumbnail | data/data_image/data_image.go:58-77 | the first requestor starts a worker; who waits is queued |
| Thumbnails.Imager.RequestWorker | data/data_image/data_image.go:82-84 | a waiting worker is admitted while a slot is free |
| Thumbnails.Imager.SendToAll | data/data_image/data_image.go:96-99 | every send finds an empty channel, so none blocks under the lock |
| Thumbnails.Imager.InformRequestors | data/data_image/data_image.go:91-102 | all requestors of the file get the outcome and the entry is gone |
| Thumbnails.Imager.RegisterFailure | data/data_image/data_image.go:104-111 | a failure is remembered after the requestors have been informed |
| Thumbnails.Imager.FreeWorker | data/data_image/data_image.go:113-114 | the slot is freed last |
| Thumbnails.QueueStaysConsistent | data/data_image/data_image.go:42-115 | under any interleaving: an entry exactly for one undrained worker, one place or one result for each requestor, at most two workers past admission |
| Thumbnails.ResultIsOfOwnFile | data/data_image/data_image.go:91-102 | a requestor is sent the outcome of the worker of the file it is queued under, and nothing else |
| Thumbnails.AnswerIsOfAskedFile | data/data_image/data_image.go:42-102 | after any interleaving, what a requestor got is how a worker of the file that it asked for finished |
| Thumbnails.SentIsTaken | data/data_image/data_image.go:64-77 | what was sent to a requestor is there for it to take, once |
| Thumbnails.RefusedIffFailedBefore | data/data_image/data_image.go:50-56 | after any interleaving, a request is refused if and only if a worker has noted a failure of the very file before |
| Thumbnails.NobodyWaitsForever | data/data_image/data_image.go:80-115 | while someone waits, some worker can go on |
| Thumbnails.AdmittedWorkersGoOn | data/data_image/data_image.go:82-114 | a worker that was admitted never waits |
| Thumbnails.WorkerStepsAreBounded | data/data_image/data_image.go:80-115 | and every worker step reduces the work that is left |
| CopyIds.Copier.ReplaceUuid | schema/copy.go:11-18 | an ID gets the next new one, and the map knows it |
| CopyIds.Copier.ReplaceQueryFilterIds | schema/copy.go:39-70 | a filter's sub queries and field IDs are renamed by the map, or a field ID is unknown |
| CopyIds.Copier.ReplaceQueryIds | schema/copy.go:72-105 | a copy is the query renamed by the returned map if no ID is replaced twice; the map is the result of its IDs in order |
| CopyIds.Copier.CopyHeldQuery | schema/copy.go:72-105 | for a query that the caller holds: the copy is written over its filters and choices, so that it is the copy but for its own ID |
| CopyIds.CopySucceedsIffFieldsKnown | schema/copy.go:39-70 | a copy succeeds if and only if every field ID was replaced before it is met |
| CopyIds.CopyIsInvertibleRenaming | schema/copy.go:11-105 | at every place, at any depth, the copy has the ID that the map holds for the original; its own IDs are new and different, and renaming backwards gives the original |
| CopyIds.Copier.ReplaceColumn | schema/copy.go:24-34 | a column gets a new ID and, if it is a sub query, a copy of its query |
| CopyIds.Copier.ReplaceColumnIds | schema/copy.go:21-37 | the array of columns is overwritten in place by the columns renamed by the returned map, or a field ID is unknown |
| CopyIds.ColumnsCopyIsInvertibleRenaming | schema/copy.go:11-105 | the same for a list of columns: new and different IDs, and the originals again when renamed backwards |

## Left out

- SQL text: statements are trees of tokens; quoting, casts, indentation, GROUP BY, ORDER BY with its errors, LIMIT, and the lookup of full text search dictionaries in attributes.
- Result handling of data GET, getPolicyValues and encryption keys.
- Data logs, file attributes and encryption keys of data SET, and relationship values that are lists of anything but numbers. What the statements for relationship values do to the rows is proved in a module of its own.
- DataSetReferences.GivenRecordsRefer: rows of n:m relations are not tied to the log of a request; module References proves what the statements for one of them do.
- Data SET with a source index that is not lower: the documented order of indexes is a precondition, and the recursion need not end without it.
- DataSets.SetRecords: that a record ID given in the request exists is left to the foreign keys of the database; an UPDATE of a missing or filtered record changes nothing, as in the program.
- n:m relations with constraints beyond the existence of both records; of a column that refers to a record, other constraints than those on empty and repeated values.
- JoinPolicies.JoinObeysPolicyIff: the database accepts the joins (different aliases, each from an earlier one, no CROSS JOIN with a condition), and their attributes connect the relations, which the program does not check. The WHERE clause can only drop rows; how often a row is returned is not modelled.
- RecordLookup.LookUpRecords: joins have distinct indexes, by which the program keys its data sets.
- Restrictions and attribute updates after the record lookups of an import row; errors of the database during lookups.
- Reading module files, compatibility checks and hashes; the import list may start in any order.
- During module import: menus, trigger deletions and the deletion of what is no longer there are not skip-tracked and change nothing in the skip set.
- The order of Go maps is arbitrary wherever the program iterates over one.
- Daylight saving and named time zones: schedules are computed in a zone of fixed offset. Years, days and seconds are unbounded integers.
- A failed load of the scheduler; goroutines whose list position a reload has removed before they take the lock; running functions and storing their dates.
- Cluster: removing the row of a node that still has a process; events are selected and deleted in one step, in the order of insertion; handlers do not fail; master_role_request is one transaction; one process per node.
- SchedulerTasks.Scheduler.RunTaskDirectly: the map of schedules to functions that the program changes beside the list is not modelled.
- QueryBuilder.Builder.GetQuery: the other clauses of the query hold no placeholders and are not built.
- Backup.TocFile.JobCleanup: directories are not modelled, and timestamps are positive as the clock makes them. A failed write of the table has been done or not; one that leaves half a table is not modelled.
- Thumbnails: image processing is an outcome that is given.
- CopyIds.Copier.ReplaceQueryIds: new IDs come from a counter, as UUIDs that have never been used; the generator does not fail. Columns, and the filters and choices of a query that the caller holds, are overwritten in place; sub queries inside them are values, which are replaced with what holds them.
- Web server, sockets, mail, LDAP, repository, licence, cryptography, configuration and schema checks.
