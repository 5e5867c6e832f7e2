# Softshaper core, modelled and proved in Dafny

Softshaper is a metadata-driven object store: classes and fields are defined at run time, objects of
those classes are rows reached through a small condition language, and a search index, an audit log
and token stores live beside them. This project models the parts that carry real invariants and
proves those invariants for every input, every run or every initialisation.

* **Query layer.** `Values`, `Meta`, `Like`, `Conditions`, `Sql`, `ConvertToJooq`, `QueryParams`,
  `QueryService`, `StableSort`, `ObjectOrder`, `InMemorySource`, `SourcesAgree`. A condition has two
  meanings: the in-memory checker, and SQL under three-valued logic (ISO/IEC 9075-2:2003 section 6.34) with LIKE
  (section 8.5, backslash as escape character, PostgreSQL's default). The project says exactly when a
  comparison means the same in both, that the REST filter loop is a correct semi-join whatever order
  its hash map yields, and that the in-memory pipeline is a page of a stable sort of a filter.
* **Meta registry.** `MetaRecords`, `MetaObjects`, `MetaInitializer`, `MetaGraphProofs`, `FieldIds`,
  `MetaSources`, `MetaStorage`, `DataSources`, `MetaRuns`. The two-pass initialisation runs over real class
  and field objects with cyclic references; the proofs say what graph it leaves, from the rows and builders
  read to the objects, exactly when the order of the unordered loader set is immaterial, and that the
  published maps stay coherent.
* **Object store and search index.** `ObjectStore`, `ObjectStoreProofs`. Rows, N x M link tables and
  sequences in place, events delivered as calls to the index; exact conditions for each operation, and
  invariants over every run.
* **Token stores.** `Tokens`, `DbTokens`, `MemoryTokens`.
* **Table view.** `TableView`: column-wise collection, batched link resolution and transposition
  against one lookup per cell.
* **Universal links and the audit history.** `UniversalLink`, `AuditHistory`.

The code is followed where it differs from its comments or from what a reader would expect. The
differences found, each with its exact condition in the named member:

* LESS in memory tests `== 1`, as GREAT does, and GREAT on Short values misses every difference other
  than one, because `Short.compareTo` answers the difference (`ComparePreservedIffSafe`).
* LIKE patterns are not escaped: `%`, `_`, a backslash or anything that lower case changes in the operand
  makes the query keep other rows, or be refused, on case-folded text (`AgreesIffPlain`). The lower case
  is the database's, whichever it is: the results hold of every one that meets `IsCaseFold`.
* An id filter goes by text in memory and by number in the database (`SameSelectionIff`).
* The text of an identifier equals a LINK field in the database, where it is converted, and never in memory,
  where it is compared with the boxed number (`LinkComparesNumber`, `LinkTextDisagrees`).
* The stand-in `id = 0` for an empty owner list selects an object with id 0 (`MultilinkExactIff`).
* `fullIndex` never deletes documents of objects that are gone (`FullIndexAgreesIff`); an update of an
  object that does not exist still writes links and a document (`UpdateKeepsInvariantIff`,
  `UpdateAgreesIff`).
* The id of an update or delete is parsed for the row and kept as text for the document and the log: sent
  as `007`, it writes or removes the wrong document (`UpdateAgreesIff`, `DeleteAgreesIff`,
  `PaddedIdBreaksIndex`) and is missing from the object's history (`HistoryCompleteIff`, `PaddedIdMissed`).
* A back reference matched only by back references of another loader resolves only when that loader runs
  earlier, so the graph depends on the order of an unordered set (`OrderImmaterialIff`,
  `GraphOrderMatters`).
* A class with an empty code is published and never found by it (`FreshlyPublished`, `EveryHistory`).
* An insert that raises after the purge leaves the token cache with purged tokens
  (`AddKeepsCoherenceIff`, `RefusedKeepsCoherenceIff`, `RefusedCreateLeavesStale`).
* The manager accepts a token at its very expiration instant, and the purge at that instant deletes it
  (`ExpiryInstantIff`).
* A deletion is logged without an object link, so no history shows it (`HistoryIsOwnEvents`).

`dafny verify dfyconfig.toml` checks the whole project.

## Model

| member | source | states |
|---|---|---|
| `Values.ParseShowInt` | meta/meta-impl/src/main/java/ru/softshaper/services/meta/jooq/ConvertConditionToJooqVisitor.java:89-102 | an identifier printed with toString is read back by Long.valueOf and Integer.valueOf, for every number in range |
| `Values.ShowIntInjective` | meta/meta-impl/src/main/java/ru/softshaper/datasource/meta/ObjectDataSourceImpl.java:239-240 | two different identifiers never print the same text |
| `Values.PrintedIsCanonical` | meta/meta-impl/src/main/java/ru/softshaper/datasource/meta/ObjectDataSourceImpl.java:325-326 | the text an identifier prints as reads back as that identifier exactly when it is a 64-bit number |
| `Values.PaddedNotCanonical` | meta/meta-impl/src/main/java/ru/softshaper/datasource/meta/ObjectDataSourceImpl.java:325-326 | `007` reads as 7, which prints as `7` |
| `Values.ParsedIsPlain` | meta/meta-impl/src/main/java/ru/softshaper/datasource/meta/ObjectDataSourceImpl.java:325-326 | text that Long.valueOf reads is digits with at most a sign in front |
| `Values.ReadsWithinBox` | meta/meta-impl/src/main/java/ru/softshaper/services/meta/jooq/ConvertConditionToJooqVisitor.java:89-102 | a printed number reads back as itself exactly when it fits 64, 32 or 16 bits |
| `Like.PlainPatternExact` | meta/meta-impl/src/main/java/ru/softshaper/services/meta/jooq/ConvertConditionToJooqVisitor.java:78-83 | for an operand without `%`, `_` and backslash the patterns `%v%`, `v%`, `%v` match exactly the texts that contain, start with, end with the operand |
| `Like.NeverMisses` | meta/meta-impl/src/main/java/ru/softshaper/staticcontent/meta/conditions/DefaultConditionChecker.java:54-62 | for every backslash-free operand and every lower case, whatever the in-memory test accepts the unescaped case-insensitive pattern matches too |
| `Like.AgreesIffPlain` | meta/meta-impl/src/main/java/ru/softshaper/services/meta/jooq/ConvertConditionToJooqVisitor.java:78-83 | for every lower case a database may use, the pattern is well formed and agrees with the in-memory test on all case-folded texts if and only if the operand has no wildcard, no backslash and nothing that lower case changes |
| `Meta.ReverseIsConverse` | meta/meta-impl/src/main/java/ru/softshaper/datasource/meta/ObjectDataSourceImpl.java:226-241 | the reverse multilink query is the converse of the forward one, multiplicities included |
| `Meta.FindField` | meta/meta-impl/src/main/java/ru/softshaper/bean/meta/MetaClassBean.java:97-111 | a field found by code is the last of the class with the code, and nothing is found exactly when no field has it |
| `Conditions.ShortCircuits` | meta/meta-impl/src/main/java/ru/softshaper/staticcontent/meta/conditions/DefaultConditionChecker.java:34-116 | AND and OR answer as Java's operators do, so an operand that raises does not show behind one that decides |
| `Conditions.CollectionNeverMatches` | meta/meta-impl/src/main/java/ru/softshaper/staticcontent/meta/conditions/DefaultConditionChecker.java:45-85 | in memory a collection equals no value and matches nothing; IN raises, and an order raises unless the value is null |
| `ConvertToJooq.ComparePreservedIffSafe` | meta/meta-impl/src/main/java/ru/softshaper/services/meta/jooq/ConvertConditionToJooqVisitor.java:41-87 | a comparison on a column, on a LINK field with an operand of the identifiers' own class, keeps in SQL exactly the rows the checker accepts, over all typed rows with any mix of nulls, if and only if the operand and operation are safe; for a text operation on a number or boolean column, if they are safe |
| `ConvertToJooq.UnsafeCell` | meta/meta-impl/src/main/java/ru/softshaper/staticcontent/meta/conditions/DefaultConditionChecker.java:45-85 | every unsafe comparison, text operations being on text columns, has a cell on which checker and SQL differ, or a pattern the database refuses |
| `ConvertToJooq.SafeCellAgrees` | meta/meta-impl/src/main/java/ru/softshaper/staticcontent/meta/conditions/DefaultConditionChecker.java:45-101 | on every cell of the column's type, null included, a safe comparison gives the same verdict in memory and under three-valued logic |
| `ConvertToJooq.ConversionPreservesMeaning` | meta/meta-impl/src/main/java/ru/softshaper/services/meta/jooq/ConvertConditionToJooqVisitor.java:31-117 | every tree of AND, OR and safe comparisons compiles to SQL that keeps exactly the rows the checker accepts, nulls included |
| `ConvertToJooq.LinkComparesNumber` | meta/meta-impl/src/main/java/ru/softshaper/services/meta/jooq/ConvertConditionToJooqVisitor.java:44-87 | on a LINK field to a class with Long or Integer identifiers every operation goes by the number n that the operand prints, whatever its class: EQUAL and IN keep a record exactly when the cell is n, GREAT and LESS when it is larger or smaller, the text operations by the print of n |
| `ConvertToJooq.LinkRefusesText` | meta/meta-impl/src/main/java/ru/softshaper/services/meta/jooq/ConvertConditionToJooqVisitor.java:44-102 | an operand that prints no number of that width is refused, whatever the operation |
| `ConvertToJooq.LinkTextDisagrees` | meta/meta-impl/src/main/java/ru/softshaper/services/meta/jooq/ConvertConditionToJooqVisitor.java:44-57 | equality of a LINK field with the text of an identifier, or with any other class of operand, holds in the database and never in memory, or is refused: the two sources disagree on some row |
| `ConvertToJooq.LinkComparesText` | meta/meta-impl/src/main/java/ru/softshaper/services/meta/jooq/ConvertConditionToJooqVisitor.java:44-102 | where identifiers are strings the operand is compared as the text it prints |
| `ConvertToJooq.LinkInNumbers` | meta/meta-impl/src/main/java/ru/softshaper/services/meta/jooq/ConvertConditionToJooqVisitor.java:89-102 | IN over a collection on a LINK field compiles exactly when every element reads as an identifier, and keeps a record exactly when one of them is the number in its cell |
| `ConvertToJooq.CollectionRefused` | meta/meta-impl/src/main/java/ru/softshaper/services/meta/jooq/ConvertConditionToJooqVisitor.java:67-87 | equality and order with a collection are refused, and on a MULTILINK field everything |
| `ConvertToJooq.NullKeepsNothing` | meta/meta-impl/src/main/java/ru/softshaper/services/meta/jooq/ConvertConditionToJooqVisitor.java:53-75 | a null operand compiles for equality, order and IN and keeps nothing |
| `ConvertToJooq.PlainCompares` | meta/meta-impl/src/main/java/ru/softshaper/services/meta/jooq/ConvertConditionToJooqVisitor.java:67-87 | on a column that is no link every operation keeps a record exactly when cell and operand stand so: numbers by value whatever their width, text in dictionary order, false before true |
| `ConvertToJooq.MultilinkCompilesIff` | meta/meta-impl/src/main/java/ru/softshaper/services/meta/jooq/ConvertConditionToJooqVisitor.java:58-66 | every operation on a MULTILINK field is the same membership test, and compiles exactly for one value that prints a 64-bit number |
| `ConvertToJooq.MultilinkExactIff` | meta/meta-impl/src/main/java/ru/softshaper/services/meta/jooq/ConvertConditionToJooqVisitor.java:59-66 | the compiled multilink equality keeps an object exactly when its forward list holds the value, if and only if its id is not 0 or the value has an owner |
| `QueryParams.PutOrderKeepsRanks` | meta/meta-api/src/main/java/ru/softshaper/services/meta/impl/GetObjectsParamsBuilder.java:25-84 | adding a sort field never lists a field twice, keeps the rank of every earlier one and changes only the one added |
| `QueryParams.ParamsBuilder.AddIds` | meta/meta-api/src/main/java/ru/softshaper/services/meta/impl/GetObjectsParamsBuilder.java:25-84 | ids accumulate as a set that exists only after the first call; nothing else of the parameters changes |
| `QueryParams.ParamsBuilder.AddOrder` | meta/meta-api/src/main/java/ru/softshaper/services/meta/impl/GetObjectsParamsBuilder.java:25-84 | the order map is created on first use and takes the field as a linked hash map does |
| `QueryService.AnyFieldLike` | admin/src/main/java/ru/softshaper/rest/admin/query/QueryServiceRest.java:336-346 | in whatever order the title fields are walked the reduction yields a disjunction of exactly their LIKE comparisons, and fails exactly when there is none |
| `QueryService.OrMeaning` | meta/meta-impl/src/main/java/ru/softshaper/services/meta/jooq/ConvertConditionToJooqVisitor.java:115-117 | a disjunction compiles when all its parts do and keeps what one of them keeps, whatever its shape |
| `QueryService.AndMeaning` | meta/meta-impl/src/main/java/ru/softshaper/services/meta/jooq/ConvertConditionToJooqVisitor.java:31-33 | a conjunction compiles when all its parts do and keeps what all of them keep, whatever its shape |
| `QueryService.AnyFieldMeaning` | admin/src/main/java/ru/softshaper/rest/admin/query/QueryServiceRest.java:336-346 | over title fields with a column and no link the disjunction keeps a record exactly when one of the fields matches |
| `QueryService.AnyTitleMeaning` | admin/src/main/java/ru/softshaper/rest/admin/query/QueryServiceRest.java:414-418 | over any title fields the disjunction compiles when every title comparison does and keeps what one of them keeps |
| `QueryService.LinkedIds` | admin/src/main/java/ru/softshaper/rest/admin/query/QueryServiceRest.java:413-421 | the ids fetched for a LINK filter are those of exactly the linked objects that a title comparison keeps; it fails exactly when the linked class has no title field or one of its comparisons cannot be compiled |
| `QueryService.FilterCondition` | admin/src/main/java/ru/softshaper/rest/admin/query/QueryServiceRest.java:410-425 | one filter becomes an IN over the matching linked ids or a LIKE, and fails exactly when the field, its linked class or a title field is missing or a title comparison cannot be compiled |
| `QueryService.GetObjectList` | admin/src/main/java/ru/softshaper/rest/admin/query/QueryServiceRest.java:384-447 | for every iteration order of the filter map the parameters hold a conjunction of exactly one condition per filter, the id filter, limit and offset; the one sort key is the last field with the sort column's code, descending exactly for "DESC", and there is none exactly when no column is given or no field has its code; it fails exactly when the class is unknown or some filter cannot be built |
| `QueryService.WhereMeaning` | meta/meta-impl/src/main/java/ru/softshaper/datasource/meta/ObjectDataSourceImpl.java:201-212 | the where clause is accepted when both the condition and the id list are, and a record must pass both |
| `QueryService.EntryMeaning` | admin/src/main/java/ru/softshaper/rest/admin/query/QueryServiceRest.java:404-431 | the condition of one filter keeps an object exactly when the filter matches it: by text, by forward link, or by a linked row that a title comparison keeps |
| `QueryService.SemiJoin` | admin/src/main/java/ru/softshaper/rest/admin/query/QueryServiceRest.java:403-434 | the query runs exactly when every filter does, and keeps exactly the objects on which every plain filter matches and every LINK filter has a linked row with that id that a title comparison keeps |
| `QueryService.BackLinkQuery` | admin/src/main/java/ru/softshaper/view/controller/attr/BackLinkAttrController.java:103-110 | the list of a back reference over a LINK field holds exactly the objects of the linking class whose field is the number of the given object |
| `QueryService.LinkMatchesText` | admin/src/main/java/ru/softshaper/rest/admin/query/QueryServiceRest.java:414-421 | where every field shown in titles has a column and is no link, such a row is one of the linked class with a title field whose text matches |
| `QueryService.OrderImmaterial` | admin/src/main/java/ru/softshaper/rest/admin/query/QueryServiceRest.java:403-434 | any two queries the loop can build from the same filters run together and keep the same objects |
| `StableSort.SortIsStable` | meta/meta-impl/src/main/java/ru/softshaper/datasource/meta/AbstractCustomDataSource.java:86-109 | under a total preorder the sort is sorted, a permutation, and keeps every group of ties in order |
| `StableSort.OnlyStableSort` | meta/meta-impl/src/main/java/ru/softshaper/datasource/meta/AbstractCustomDataSource.java:86-109 | under a total preorder there is exactly one stable sort, so the answer does not depend on the algorithm |
| `StableSort.SortRaisesIff` | meta/meta-impl/src/main/java/ru/softshaper/datasource/meta/AbstractCustomDataSource.java:86-109 | a sort whose comparator may raise raises exactly when some pair cannot be compared, and otherwise is the stable sort |
| `StableSort.NeighboursDecide` | meta/meta-impl/src/main/java/ru/softshaper/datasource/meta/AbstractCustomDataSource.java:86-109 | whatever the algorithm, once the neighbours of its answer have been found in order every pair can be compared |
| `StableSort.StableSortPrecedes` | meta/meta-impl/src/main/java/ru/softshaper/datasource/meta/AbstractCustomDataSource.java:86-109 | of two ties the one that stands in front in the sorted list stood in front in the source |
| `ObjectOrder.FieldOrder` | meta/meta-impl/src/main/java/ru/softshaper/staticcontent/meta/comparators/DefaultObjectComparator.java:27-41 | comparing one field is antisymmetric in sign and transitive, and never answers the smallest int |
| `ObjectOrder.FieldSign` | meta/meta-impl/src/main/java/ru/softshaper/staticcontent/meta/comparators/DefaultObjectComparator.java:27-41 | the answer is negative exactly when the first value comes first: null before every value, the smaller number, text by its first differing character or its end, false before true; it is zero exactly on equal values and raises exactly on values of two classes |
| `ObjectOrder.FlipReversesIff` | meta/meta-impl/src/main/java/ru/softshaper/datasource/meta/AbstractCustomDataSource.java:86-109 | the 32-bit `* -1` reverses a comparison exactly when it is not the smallest int |
| `ObjectOrder.CompareLoop` | meta/meta-impl/src/main/java/ru/softshaper/datasource/meta/AbstractCustomDataSource.java:86-109 | the comparator's loop, left at the first field that decides, computes the lexicographic comparison, its failures included |
| `ObjectOrder.ComparatorIsTotalPreorder` | meta/meta-impl/src/main/java/ru/softshaper/datasource/meta/AbstractCustomDataSource.java:86-109 | for every list of order fields with mixed directions, null values and null objects included, the comparator is antisymmetric in sign, transitive and consistent on ties wherever it does not raise |
| `ObjectOrder.KeysChain` | meta/meta-impl/src/main/java/ru/softshaper/datasource/meta/AbstractCustomDataSource.java:86-109 | objects that compare in ascending order in a row also compare at the ends, whatever the classes of their values |
| `ObjectOrder.KeysOrder` | meta/meta-impl/src/main/java/ru/softshaper/datasource/meta/AbstractCustomDataSource.java:93-103 | the comparator answers at most zero exactly when, on every key up to which the objects hold the same values, the first does not come after the second, under DESC not before it; it answers zero exactly when they hold the same values on all keys |
| `ObjectOrder.ObjectsOrder` | meta/meta-impl/src/main/java/ru/softshaper/datasource/meta/AbstractCustomDataSource.java:90-104 | null objects stand in front of all others, which stand as their values on the keys do |
| `InMemorySource.PullPageIsPage` | meta/meta-impl/src/main/java/ru/softshaper/datasource/meta/AbstractCustomDataSource.java:47-77 | when pulling objects lazily until the page is full does not raise, it gives the page of the accepted objects |
| `InMemorySource.PullPageRaisesIff` | meta/meta-impl/src/main/java/ru/softshaper/datasource/meta/AbstractCustomDataSource.java:47-77 | the lazy stream raises exactly when an object whose check raises is reached before the page is full |
| `InMemorySource.PullAllIsFilter` | meta/meta-impl/src/main/java/ru/softshaper/datasource/meta/AbstractCustomDataSource.java:118-138 | in front of a sort every object is checked: the stage fails when one check does and otherwise keeps exactly the accepted objects in order |
| `InMemorySource.ComparatorSorts` | meta/meta-impl/src/main/java/ru/softshaper/datasource/meta/AbstractCustomDataSource.java:86-109 | the stream sort raises exactly when some two objects cannot be compared; otherwise the comparator is a total preorder and the sort is the stable one |
| `InMemorySource.PipelineIsPageOfSelection` | meta/meta-impl/src/main/java/ru/softshaper/datasource/meta/AbstractCustomDataSource.java:47-77 | whenever the query answers, the answer is take(limit, drop(offset, stable sort of the objects passing ids and condition)), for every parameter set and whichever stable sort is used |
| `InMemorySource.AnswerAccepted` | meta/meta-impl/src/main/java/ru/softshaper/datasource/meta/AbstractCustomDataSource.java:47-61 | the objects of an answer are objects of the source that pass both filters |
| `InMemorySource.AnswerInOrder` | meta/meta-impl/src/main/java/ru/softshaper/datasource/meta/AbstractCustomDataSource.java:47-109 | any two objects of an answer stand as the order fields ask: by the first key nulls first and values ascending, the other way round under DESC, a later key deciding only among objects that hold the same values on all earlier ones, and the source's order where no key decides or none is asked for |
| `InMemorySource.OneKeyAnswer` | meta/meta-impl/src/main/java/ru/softshaper/datasource/meta/AbstractCustomDataSource.java:86-109 | with one key an answer lists nulls first and numbers ascending, under DESC numbers descending and nulls last |
| `InMemorySource.PageIsSlice` | meta/meta-impl/src/main/java/ru/softshaper/datasource/meta/AbstractCustomDataSource.java:72-77 | object i of a page is object offset + i of the unpaged answer, and the page has as many of them as limit and answer allow |
| `InMemorySource.GetObjectsRaisesIff` | meta/meta-impl/src/main/java/ru/softshaper/datasource/meta/AbstractCustomDataSource.java:47-109 | the query raises exactly on a negative bound while paging is on, on an object whose check raises before an unsorted page is full, or, when sorting, on any such object or two accepted objects that cannot be compared |
| `InMemorySource.PagesArePrefix` | meta/meta-impl/src/main/java/ru/softshaper/datasource/meta/AbstractCustomDataSource.java:72-77 | the first n pages of any positive size concatenate to the first n times size objects of the unpaged answer |
| `InMemorySource.PagesCoverSelection` | meta/meta-impl/src/main/java/ru/softshaper/datasource/meta/AbstractCustomDataSource.java:72-77 | consecutive pages of any positive size that reach the end answer exactly when the unpaged query does, and reproduce its answer, nothing lost and nothing repeated |
| `SourcesAgree.AcceptMeaning` | meta/meta-impl/src/main/java/ru/softshaper/datasource/meta/AbstractCustomDataSource.java:118-138 | over the records of a database an in-memory source accepts an object exactly when its id is asked for as text and a safe condition keeps its record in SQL |
| `SourcesAgree.SelectedMeaning` | meta/meta-impl/src/main/java/ru/softshaper/datasource/meta/ObjectDataSourceImpl.java:201-212 | the database source selects it exactly when its id is asked for by number and the condition keeps its record |
| `SourcesAgree.SameSelectionIff` | meta/meta-impl/src/main/java/ru/softshaper/datasource/meta/ObjectDataSourceImpl.java:201-222 | for a safe condition and an id list of numbers both sources select the same ids if and only if no object that passes is asked for only by a text that reads as its id without being its print |
| `SourcesAgree.SameSelection` | meta/meta-impl/src/main/java/ru/softshaper/datasource/meta/AbstractCustomDataSource.java:47-58 | with ids as they are printed, or none, both sources always select the same ids |
| `MetaRecords.FindTarget` | meta/meta-impl/src/main/java/ru/softshaper/services/meta/impl/loader/DynamicContentLoader.java:89-97 | a target is found at a matching field, and not found exactly when the linked class has no such field yet |
| `MetaRecords.LoadedOnce` | meta/meta-impl/src/main/java/ru/softshaper/services/meta/impl/loader/StaticContentLoader.java:38-44 | a loader yields each class id it reads exactly once |
| `MetaObjects.MetaClass.AddField` | meta/meta-impl/src/main/java/ru/softshaper/bean/meta/MetaClassMutableBean.java:57-64 | the field list grows at its end and the by-code map answers, for every code, the last field added with it |
| `MetaInitializer.FindBackReference` | meta/meta-impl/src/main/java/ru/softshaper/bean/meta/FieldBuilder.java:116-118 | a dynamic row finds the first field with the id in the linked class's current list, a builder the last one with the code |
| `MetaInitializer.FirstByIdMirrors` | meta/meta-impl/src/main/java/ru/softshaper/services/meta/impl/loader/DynamicContentLoader.java:89-97 | looking an id up among the objects finds the object at the position its record has |
| `MetaInitializer.LastByCodeMirrors` | meta/meta-impl/src/main/java/ru/softshaper/bean/meta/MetaClassBean.java:164-166 | looking a code up among the objects finds the object at the position its record has |
| `MetaInitializer.BuildField` | meta/meta-impl/src/main/java/ru/softshaper/services/meta/impl/loader/DynamicContentLoader.java:80-108 | a field object holds its record, its owner, its linked class and the target found in the lists of that moment; a dynamic row is skipped exactly when its linked class is missing |
| `MetaInitializer.LoadFields` | meta/meta-impl/src/main/java/ru/softshaper/services/meta/impl/loader/DynamicContentLoader.java:69-110 | a loader yields one such object for each record it does not skip, in order |
| `MetaInitializer.AddFields` | meta/meta-impl/src/main/java/ru/softshaper/services/meta/impl/MetaInitializerImpl.java:85-109 | each class's list grows by exactly the fields of the pass that it owns, and every by-code map stays in step |
| `MetaInitializer.RunPass` | meta/meta-impl/src/main/java/ru/softshaper/services/meta/impl/MetaInitializerImpl.java:85-109 | after each loader's turn the lists hold what the loaders so far contribute, each object built against the lists its loader saw |
| `MetaInitializer.LoadClasses` | meta/meta-impl/src/main/java/ru/softshaper/services/meta/impl/MetaInitializerImpl.java:66-83 | one fresh object per class record; of those sharing an id the one loaded last is found by id, and the by-code map finds the class loaded last with a code |
| `MetaInitializer.LoadAllFields` | meta/meta-impl/src/main/java/ru/softshaper/services/meta/impl/MetaInitializerImpl.java:84-109 | after both passes every class lists first its fields, then its back references, each built as its record asks |
| `MetaInitializer.MetaInitializerImpl.Init` | meta/meta-impl/src/main/java/ru/softshaper/services/meta/impl/MetaInitializerImpl.java:66-113 | the graph is complete and in step, objects superseded by a later one with their id stay without fields, the registry maps hold the load over what they held before, and the data source map is replaced by the one of this load |
| `MetaInitializer.SourcesOfIds` | meta/meta-impl/src/main/java/ru/softshaper/datasource/meta/DataSourceStorageBase.java:56-64 | the data source map's keys are exactly the loaded class ids |
| `MetaInitializer.ServedIffLoaded` | meta/meta-impl/src/main/java/ru/softshaper/datasource/meta/DataSourceStorageBase.java:56-70 | a class object, current or stale, is served exactly when its id was in the last load, and by the data source that load gave the id last |
| `MetaGraphProofs.OwnMembers` | meta/meta-impl/src/main/java/ru/softshaper/services/meta/impl/MetaInitializerImpl.java:85-109 | a pass adds a record to a class as often as the loaders hold it when the class owns it and the pass is its own, and otherwise never |
| `MetaGraphProofs.EachFieldOnce` | meta/meta-impl/src/main/java/ru/softshaper/services/meta/impl/MetaInitializerImpl.java:84-109 | although every loader is asked twice, a class ends up with each record it owns exactly as often as the loaders hold it, and with no other |
| `MetaGraphProofs.BackReferenceResolvesIff` | meta/meta-impl/src/main/java/ru/softshaper/services/meta/impl/MetaInitializerImpl.java:97-109 | a back reference resolves exactly when its linked class has a matching field that is no back reference, or a matching back reference from an earlier loader; in the first pass only earlier loaders count |
| `MetaGraphProofs.BackReferencePointsIntoList` | meta/meta-impl/src/main/java/ru/softshaper/services/meta/impl/MetaInitializerImpl.java:97-109 | in the initialised graph every back reference whose target is an existing other kind of field points to the very object held in the linked class's list, and that object answers the target |
| `MetaGraphProofs.TargetRecordIs` | meta/meta-impl/src/main/java/ru/softshaper/bean/meta/FieldBuilder.java:116-118 | a target that is not contested by another loader finds the one matching field of its linked class wherever its loader stands |
| `MetaGraphProofs.BackReferencesOrderFree` | meta/meta-impl/src/main/java/ru/softshaper/services/meta/impl/MetaInitializerImpl.java:26-109 | where no target is contested, in any two orders of the loaders a back reference resolves to the same field of the same class |
| `MetaGraphProofs.ContestedDiffers` | meta/meta-impl/src/main/java/ru/softshaper/services/meta/impl/MetaInitializerImpl.java:97-109 | a target matched only by records of its own pass, one of them of another loader, is not found when its loader comes first and found when it comes last |
| `MetaGraphProofs.ContestedExample` | meta/meta-impl/src/main/java/ru/softshaper/services/meta/impl/MetaInitializerImpl.java:26-109 | a dynamic class whose back reference targets one of static content: the order of the one dynamic and the one static loader decides whether it resolves |
| `MetaGraphProofs.OrderImmaterialIff` | meta/meta-impl/src/main/java/ru/softshaper/services/meta/impl/MetaInitializerImpl.java:26-109 | with unique ids and codes every target resolves the same in every order of the loaders if and only if none is contested |
| `MetaGraphProofs.GraphOrderFree` | meta/meta-impl/src/main/java/ru/softshaper/services/meta/impl/MetaInitializerImpl.java:26-109 | where no target is contested, two initialisations over the same loaders in different orders give every class the same fields with the same owners, links and resolved back references |
| `MetaGraphProofs.GraphOrderMatters` | meta/meta-impl/src/main/java/ru/softshaper/services/meta/impl/MetaInitializerImpl.java:26-109 | where one is contested, the owning class has a field in every graph with the loader last that it has in no graph with the loader first |
| `MetaSources.ObjectIsRead` | meta/meta-impl/src/main/java/ru/softshaper/services/meta/impl/MetaInitializerImpl.java:66-83 | every class object has the id, code and table of a content row or static content that some loader reads |
| `MetaSources.ReadHasObject` | meta/meta-impl/src/main/java/ru/softshaper/services/meta/impl/MetaInitializerImpl.java:66-83 | every content row and static content has a class object, found by its id |
| `MetaSources.SourceIsRead` | meta/meta-impl/src/main/java/ru/softshaper/services/meta/impl/MetaInitializerImpl.java:66-83 | the data source a class id is served by is one that some loader reads with that id |
| `MetaSources.PutClassesFrom` | meta/meta-impl/src/main/java/ru/softshaper/services/meta/impl/loader/StaticContentLoader.java:38-44 | of the rows of one loader with one id the first gives the class its code and table, the last its data source |
| `MetaSources.BuilderHasField` | meta/meta-impl/src/main/java/ru/softshaper/bean/meta/FieldBuilder.java:106-119 | in an initialised graph every builder of static content has its field object: listed by the class with the content's code, linked to the loaded class with the builder's linked code or, when none is loaded, to none, and referring back, if at all, to a field in that class's list with the builder's back reference code; a back reference does so when the linked class has such a field that is no back reference |
| `MetaSources.RowHasField` | meta/meta-impl/src/main/java/ru/softshaper/services/meta/impl/loader/DynamicContentLoader.java:69-110 | the same of every dynamic row whose class and linked class are loaded, by id |
| `MetaSources.FieldHasOrigin` | meta/meta-impl/src/main/java/ru/softshaper/services/meta/impl/loader/DynamicContentLoader.java:69-110 | every field of the graph is that of a builder or row, described the same way and in the list of the class it names, so a row whose linked class is missing leaves none |
| `MetaSources.ListedAtMostAsRead` | meta/meta-impl/src/main/java/ru/softshaper/services/meta/impl/MetaInitializerImpl.java:84-109 | although every loader is asked twice, a class lists an id no more often than rows and builders with the id were read |
| `FieldIds.DynamicFields.IdOf` | meta/meta-impl/src/main/java/ru/softshaper/bean/meta/FieldBuilder.java:106-119 | a known class and code answers its stored id and changes nothing; a new one is stored under the next id |
| `FieldIds.SameIdIff` | meta/meta-impl/src/main/java/ru/softshaper/bean/meta/FieldBuilder.java:106-119 | over any run two answers are the same id exactly when they are for the same class and code |
| `FieldIds.SecondPassInsertsNothing` | meta/meta-impl/src/main/java/ru/softshaper/staticcontent/meta/StaticContentBase.java:123-151 | asking again for fields already asked for, in any order, inserts no row |
| `MetaStorage.MetaStorageImpl.Register` | meta/meta-impl/src/main/java/ru/softshaper/services/meta/impl/MetaStorageImpl.java:49-65 | the four maps become the old ones overlaid with the batch in order, and nothing else |
| `MetaStorage.PublishCoherentIff` | meta/meta-impl/src/main/java/ru/softshaper/services/meta/impl/MetaStorageImpl.java:49-65 | publishing a class keeps lookup by code or table and then by id coherent exactly when its id is not published under another code or table |
| `MetaStorage.FreshlyPublished` | meta/meta-impl/src/main/java/ru/softshaper/services/meta/impl/MetaStorageImpl.java:49-123 | after a registration getMetaClassById answers each class of the batch that no later one supersedes, getMetaClass answers it by code exactly when the code is not empty, and getMetaClassByTable when no later one has the table |
| `MetaStorage.NothingLost` | meta/meta-impl/src/main/java/ru/softshaper/services/meta/impl/MetaStorageImpl.java:49-65 | no code, id or table registered before is lost, and those of the batch are there |
| `MetaStorage.EveryHistory` | meta/meta-impl/src/main/java/ru/softshaper/services/meta/impl/MetaStorageImpl.java:49-123 | over any history in which an id fixes code and table every lookup by code or table agrees with the lookup by the id found, and every class ever registered is answered for by id, by table, and by code exactly when that is not empty |
| `MetaStorage.LastBatchFound` | meta/meta-impl/src/main/java/ru/softshaper/services/meta/impl/MetaStorageImpl.java:49-90 | of the batch registered last the lookups find each class that no later one supersedes, by code exactly when that is not empty |
| `MetaRuns.InitAll` | meta/meta-impl/src/main/java/ru/softshaper/services/meta/impl/MetaInitializerImpl.java:66-113 | after any number of initialisations the registry is that of all their class objects in order, and the data sources those of the last load |
| `MetaRuns.AfterEveryInit` | meta/meta-impl/src/main/java/ru/softshaper/services/meta/impl/MetaInitializerImpl.java:66-113 | then lookups by code and table agree with the lookup by id, every class ever loaded is answered by its id, and of the answered classes exactly the objects of the last load have a data source |
| `MetaRuns.StaleServedIff` | meta/meta-impl/src/main/java/ru/softshaper/datasource/meta/DataSourceStorageBase.java:56-70 | a class object of an earlier load is served exactly when the last load has one with its id |
| `MetaStorage.FreshFieldsFound` | meta/meta-impl/src/main/java/ru/softshaper/services/meta/impl/MetaStorageImpl.java:49-110 | after a registration getMetaField answers a field of its classes by its id when no other of the batch has it |
| `DataSources.DataSourceStorage.Register` | meta/meta-impl/src/main/java/ru/softshaper/datasource/meta/DataSourceStorageBase.java:34-40 | the classes' ids are served by the data source and every other id as before |
| `DataSources.DataSourceStorage.RegisterAllWithClean` | meta/meta-impl/src/main/java/ru/softshaper/datasource/meta/DataSourceStorageBase.java:56-64 | the map is replaced wholesale |
| `ObjectStore.Prepare` | meta/meta-impl/src/main/java/ru/softshaper/datasource/meta/ObjectDataSourceImpl.java:266-272 | the column assignments and link collections of a write, null values left out of an insert and written by an update; it refuses empty values, an unknown class and an unknown field |
| `ObjectStore.ObjectDataSource.CreateObject` | meta/meta-impl/src/main/java/ru/softshaper/datasource/meta/ObjectDataSourceImpl.java:258-287 | the whole new state: row under the next id, link tables rewritten, document indexed under the printed id; a failure changes nothing, except that it loses the drawn id when the unknown code walked last has a null value |
| `ObjectStore.ObjectDataSource.UpdateObject` | meta/meta-impl/src/main/java/ru/softshaper/datasource/meta/ObjectDataSourceImpl.java:298-327 | the whole new state: the row and links of the number the id text reads as, the document of the text itself, also when there is no such row; an id that is no number is refused |
| `ObjectStore.ObjectDataSource.DeleteObject` | meta/meta-impl/src/main/java/ru/softshaper/datasource/meta/ObjectDataSourceImpl.java:365-375 | the whole new state: the row and the links of the number the id text reads as are gone, and the document of the text itself; an id that is no number is refused |
| `ObjectStore.ObjectDataSource.UpdateMultilink` | meta/meta-impl/src/main/java/ru/softshaper/datasource/meta/ObjectDataSourceImpl.java:329-345 | the object's links in the table are dropped and one link per element is appended under consecutive sequence values |
| `ObjectStore.Indexator.IndexObject` | search/elasticsearch/src/main/java/ru/softshaper/search/elasticsearch/Indexator.java:90-121 | the document is replaced by the submitted values, collections left out, whatever order they come in |
| `ObjectStore.Indexator.FullIndex` | search/elasticsearch/src/main/java/ru/softshaper/search/elasticsearch/Indexator.java:54-88 | every object of a known class gets the document of its row's columns under its printed id, and other documents stay |
| `ObjectStore.Indexator.BuildFullDoc` | search/elasticsearch/src/main/java/ru/softshaper/search/elasticsearch/Indexator.java:68-75 | the document holds every field with a column, from the row |
| `ObjectStoreProofs.TableForward` | meta/meta-impl/src/main/java/ru/softshaper/datasource/meta/ObjectDataSourceImpl.java:329-345 | writing a collection makes it the object's forward list and changes no other object's list |
| `ObjectStoreProofs.TableUnique` | meta/meta-impl/src/main/java/ru/softshaper/datasource/meta/ObjectDataSourceImpl.java:329-345 | link ids drawn from the sequence stay unique |
| `ObjectStoreProofs.CreateKeepsInvariant` | meta/meta-impl/src/main/java/ru/softshaper/datasource/meta/ObjectDataSourceImpl.java:258-287 | a create keeps link ids unique, every link at a live object and every id drawn from its sequence |
| `ObjectStoreProofs.UpdateKeepsInvariantIff` | meta/meta-impl/src/main/java/ru/softshaper/datasource/meta/ObjectDataSourceImpl.java:298-327 | an update keeps the invariant exactly when its object is live or it writes no non-empty collection |
| `ObjectStoreProofs.DeleteKeepsInvariant` | meta/meta-impl/src/main/java/ru/softshaper/datasource/meta/ObjectDataSourceImpl.java:365-375 | a delete leaves no link at the deleted object and keeps the invariant |
| `ObjectStoreProofs.UpdateLinks` | meta/meta-impl/src/main/java/ru/softshaper/datasource/meta/ObjectDataSourceImpl.java:298-345 | an accepted update makes each submitted collection the forward list of its field for the object the id reads as, changes no other object's list and no other field's table, and draws one link id for each element |
| `ObjectStoreProofs.CreateLinks` | meta/meta-impl/src/main/java/ru/softshaper/datasource/meta/ObjectDataSourceImpl.java:258-345 | the same of a create, for the object whose printed number it answers |
| `ObjectStoreProofs.DeleteLinks` | meta/meta-impl/src/main/java/ru/softshaper/datasource/meta/ObjectDataSourceImpl.java:365-375 | an accepted delete empties every list of the object and changes no other object's list and no other class's |
| `ObjectStoreProofs.UpdateCells` | meta/meta-impl/src/main/java/ru/softshaper/datasource/meta/ObjectDataSourceImpl.java:306-325 | after an accepted update the same objects exist, and every column of the addressed object holds the submitted value when its field was submitted and what it held before otherwise |
| `ObjectStoreProofs.UpdateLeavesOthers` | meta/meta-impl/src/main/java/ru/softshaper/datasource/meta/ObjectDataSourceImpl.java:325-326 | every other object's row is unchanged |
| `ObjectStoreProofs.CreateMakes` | meta/meta-impl/src/main/java/ru/softshaper/datasource/meta/ObjectDataSourceImpl.java:275-286 | an accepted create makes one object, under a number above all live ones of its class, answers the print of that number and leaves every other row as it was |
| `ObjectStoreProofs.CreateCells` | meta/meta-impl/src/main/java/ru/softshaper/datasource/meta/ObjectDataSourceImpl.java:266-281 | in that row a column holds the submitted value, and null where none was submitted |
| `ObjectStoreProofs.DeleteRemoves` | meta/meta-impl/src/main/java/ru/softshaper/datasource/meta/ObjectDataSourceImpl.java:365-375 | an accepted delete removes the one object the id reads as and leaves every other row as it was |
| `ObjectStoreProofs.RefusedIff` | meta/meta-impl/src/main/java/ru/softshaper/datasource/meta/ObjectDataSourceImpl.java:258-375 | a write is refused exactly when it is empty, the class is unknown, a code has no field or a collection goes to a column, an update or delete also when the id is no number, with the error of each |
| `ObjectStoreProofs.RefusedChangesNothing` | meta/meta-impl/src/main/java/ru/softshaper/datasource/meta/ObjectDataSourceImpl.java:258-327 | a refused update or delete changes nothing; a refused create leaves rows, links and documents and draws an id exactly when null was submitted for the unknown code walked last |
| `ObjectStoreProofs.EventDocAgreesIff` | search/elasticsearch/src/main/java/ru/softshaper/listeners/IndexListener.java:22-44 | the document of an event agrees with the written row exactly when every field with a column was supplied |
| `ObjectStoreProofs.WrittenDocument` | search/elasticsearch/src/main/java/ru/softshaper/search/elasticsearch/Indexator.java:90-121 | the document of a write holds every submitted single value under its code: text as it is, numbers and booleans as they print, null as JSON null, and nothing else |
| `ObjectStoreProofs.RebuiltDocument` | search/elasticsearch/src/main/java/ru/softshaper/search/elasticsearch/Indexator.java:68-75 | a rebuilt document holds the same of every field with a column, from the row, and nothing else |
| `ObjectStoreProofs.OneDocument` | search/elasticsearch/src/main/java/ru/softshaper/listeners/IndexListener.java:22-44 | each operation touches one document: of the object it makes, or under the text the id was sent as |
| `ObjectStoreProofs.CreateAgreesIff` | search/elasticsearch/src/main/java/ru/softshaper/listeners/IndexListener.java:22-26 | a create keeps the index equal to a rebuild exactly when it is refused or supplies every column |
| `ObjectStoreProofs.UpdateAgreesIff` | search/elasticsearch/src/main/java/ru/softshaper/listeners/IndexListener.java:28-32 | an update keeps the index equal to a rebuild exactly when it is refused, or its object is live, its id is sent as it is printed and every column is supplied |
| `ObjectStoreProofs.DeleteAgreesIff` | search/elasticsearch/src/main/java/ru/softshaper/listeners/IndexListener.java:34-36 | a delete keeps the index equal to a rebuild exactly when it is refused, hits no row, or its id is sent as it is printed |
| `ObjectStoreProofs.PaddedIdBreaksIndex` | admin/src/main/java/ru/softshaper/rest/admin/query/QueryServiceRest.java:118-159 | sent as `007`, an update of the live object 7 and its deletion each leave the index out of step |
| `ObjectStoreProofs.PaddedIdExample` | admin/src/main/java/ru/softshaper/rest/admin/query/QueryServiceRest.java:118-159 | a concrete store on which they do |
| `ObjectStoreProofs.FullIndexAgreesIff` | search/elasticsearch/src/main/java/ru/softshaper/search/elasticsearch/Indexator.java:54-88 | a full rebuild agrees with the rows exactly when no document of a missing object was there |
| `ObjectStoreProofs.RunKeepsInvariant` | meta/meta-impl/src/main/java/ru/softshaper/datasource/meta/ObjectDataSourceImpl.java:258-375 | over any run with updates on live ids the link tables stay sound |
| `ObjectStoreProofs.RunKeepsIndex` | search/elasticsearch/src/main/java/ru/softshaper/listeners/IndexListener.java:22-44 | over any run on live ids, sent as they are printed, whose writes supply every column, the index holds a document for exactly the live ids, each agreeing with a rebuild |
| `ObjectStoreProofs.RunInStepIff` | search/elasticsearch/src/main/java/ru/softshaper/listeners/IndexListener.java:22-44 | the index agrees with a rebuild throughout a run if and only if each operation meets its own exact condition |
| `ObjectStoreProofs.EveryRun` | meta/meta-impl/src/main/java/ru/softshaper/datasource/meta/ObjectDataSourceImpl.java:258-375 | from the empty store: link tables sound when updates address live objects, and the index in step throughout exactly when every operation keeps it so |
| `ObjectStoreProofs.IdsNeverReused` | meta/meta-impl/src/main/java/ru/softshaper/datasource/meta/ObjectDataSourceImpl.java:275-286 | over any run two accepted creates of one class answer different ids, whatever is deleted between them |
| `ObjectStoreProofs.MultilinkQueryExact` | meta/meta-impl/src/main/java/ru/softshaper/services/meta/jooq/ConvertConditionToJooqVisitor.java:59-66 | in every reachable store the compiled multilink equality keeps exactly the live objects whose forward list holds the value |
| `DbTokens.DbTokenStorage.GetToken` | security/security-impl/src/main/java/ru/softshaper/services/security/token/storage/DBTokenStorage.java:35-40 | a cached answer is given as it is, otherwise the repository's, and either is cached, absence included |
| `DbTokens.DbTokenStorage.AddToken` | security/security-impl/src/main/java/ru/softshaper/services/security/token/storage/DBTokenStorage.java:42-48 | the login is purged first, then the token stored and the cache cleared; a duplicate id or a refused insert fails after the purge with the cache untouched |
| `DbTokens.DbTokenStorage.ActualizeCurToken` | security/security-impl/src/main/java/ru/softshaper/services/security/token/storage/DBTokenStorage.java:50-71 | a full login loses one token of earliest expiration, and every login its expired tokens, whichever of equal ones is met first |
| `DbTokens.DbTokenStorage.RemoveToken` | security/security-impl/src/main/java/ru/softshaper/services/security/token/storage/DBTokenStorage.java:80-84 | the token leaves the repository and the cache is cleared |
| `DbTokens.TokenManager.GetToken` | security/security-impl/src/main/java/ru/softshaper/services/security/token/TokenManagerImpl.java:19-35 | an absent token is refused, one expired before now is refused and removed, any other is returned |
| `DbTokens.FindEarliest` | security/security-impl/src/main/java/ru/softshaper/services/security/token/storage/DBTokenStorage.java:50-71 | the minimum of a non-empty set of tokens by expiration |
| `DbTokens.PurgeKeeps` | security/security-impl/src/main/java/ru/softshaper/services/security/token/storage/DBTokenStorage.java:50-71 | a purge deletes only the login's tokens, leaves it no expired one, and other logins lose nothing |
| `DbTokens.PurgeOfUnexpired` | security/security-impl/src/main/java/ru/softshaper/services/security/token/storage/DBTokenStorage.java:50-71 | an unexpired token is purged only when the login held at least five and none had expired; it is then one of earliest expiration and the only one purged |
| `DbTokens.AddKeepsCap` | security/security-impl/src/main/java/ru/softshaper/services/security/token/storage/DBTokenStorage.java:42-71 | after a create no login holds more than five tokens if none did before |
| `DbTokens.SurvivorsUnexpired` | security/security-impl/src/main/java/ru/softshaper/services/security/token/storage/DBTokenStorage.java:42-71 | after a create the new token is stored and every older survivor of the login is unexpired and unchanged |
| `DbTokens.AddKeepsCoherenceIff` | security/security-impl/src/main/java/ru/softshaper/services/security/token/storage/DBTokenStorage.java:42-48 | every outcome of a create keeps the cache coherent if and only if no purge it may make, in front of an insert that raises, deletes a cached token |
| `DbTokens.RefusedKeepsCoherenceIff` | security/security-impl/src/main/java/ru/softshaper/services/security/token/storage/DBTokenStorage.java:42-71 | when the database refuses the insert: if and only if no cached token is expired or, in a full login, one of earliest expiration |
| `DbTokens.RefusedCreateLeavesStale` | security/security-impl/src/main/java/ru/softshaper/services/security/token/storage/DBTokenStorage.java:42-71 | a concrete store whose cache still answers with a purged token after a refused create |
| `DbTokens.PurgedBySomeIff` | security/security-impl/src/main/java/ru/softshaper/services/security/token/storage/DBTokenStorage.java:50-71 | exactly which tokens some purge deletes: the expired ones, and in a full login those of earliest expiration |
| `DbTokens.ExpiryInstantIff` | security/security-impl/src/main/java/ru/softshaper/services/security/token/TokenManagerImpl.java:25-35 | the manager returns a stored token that the purge calls expired exactly at the instant it expires |
| `DbTokens.AskedAnswer` | security/security-impl/src/main/java/ru/softshaper/services/security/token/TokenManagerImpl.java:19-35 | over a coherent cache a stored token is answered with that very token up to and at its expiration, reported expired after it and then removed, and no token is answered exactly when none is stored; the cache stays coherent |
| `DbTokens.AskedKeeps` | security/security-impl/src/main/java/ru/softshaper/services/security/token/TokenManagerImpl.java:25-35 | whatever the cache holds, no token expired before now is returned, one reported expired is gone, and the cap is kept |
| `DbTokens.EveryReachableState` | security/security-impl/src/main/java/ru/softshaper/services/security/token/storage/DBTokenStorage.java:35-84 | in every reachable state each login holds at most five tokens and only issued ids are known, and every cached answer equals the repository's as long as the database has refused no insert |
| `DbTokens.NeverMoreThanFive` | security/security-impl/src/main/java/ru/softshaper/services/security/token/storage/DBTokenStorage.java:42-71 | at no moment of a run does a login hold more than five tokens |
| `DbTokens.GoneForGood` | security/security-impl/src/main/java/ru/softshaper/services/security/token/storage/DBTokenStorage.java:35-84 | a token that has left the store is never stored again |
| `DbTokens.EveryAnswer` | security/security-impl/src/main/java/ru/softshaper/services/security/token/TokenManagerImpl.java:19-35 | no answer of a run is a token expired before the call and one reported expired is gone from then on; until a refused insert a stored token is answered with that very token up to and at its expiration and reported expired after it, and no token exactly when none is stored |
| `DbTokens.CreatedIsAnswered` | security/security-impl/src/main/java/ru/softshaper/services/security/token/TokenManagerImpl.java:19-35 | what a create stores is answered by every later lookup until it expires, as long as its login gets no other token, no lookup comes after its expiration and no insert is refused |
| `MemoryTokens.MemoryTokenStorage.AddToken` | security/security-impl/src/main/java/ru/softshaper/services/security/token/storage/MemoryTokenStorage.java:18-37 | both maps after an add: the login's previous token removed, the new one under its id and its login |
| `MemoryTokens.MemoryTokenStorage.RemoveToken` | security/security-impl/src/main/java/ru/softshaper/services/security/token/storage/MemoryTokenStorage.java:18-37 | the token's login and id are removed, each from its own map |
| `MemoryTokens.TokenManager.GetToken` | security/security-impl/src/main/java/ru/softshaper/services/security/token/TokenManagerImpl.java:19-35 | the manager's verdict, with an expired token removed from both maps |
| `MemoryTokens.RemoveKeepsInverseIff` | security/security-impl/src/main/java/ru/softshaper/services/security/token/storage/MemoryTokenStorage.java:18-37 | a removal keeps the maps mutual inverses exactly when it hits both entries of one stored token, or none |
| `MemoryTokens.AddKeepsInverseIff` | security/security-impl/src/main/java/ru/softshaper/services/security/token/storage/MemoryTokenStorage.java:18-37 | an add keeps the maps mutual inverses exactly when the id is new or already the login's |
| `MemoryTokens.AddRefines` | security/security-impl/src/main/java/ru/softshaper/services/security/token/storage/MemoryTokenStorage.java:18-37 | an add with a fresh id is a put on a single login-to-token map, and the superseded id is gone |
| `MemoryTokens.AskAnswers` | security/security-impl/src/main/java/ru/softshaper/services/security/token/TokenManagerImpl.java:25-35 | a stored token is answered with that very token up to and at its expiration and reported expired after it, and no token is answered exactly when none is stored under the id |
| `MemoryTokens.AskRefines` | security/security-impl/src/main/java/ru/softshaper/services/security/token/TokenManagerImpl.java:19-35 | a lookup answers for the login that holds the id in that single map, and an expired one loses its login |
| `MemoryTokens.EveryRun` | security/security-impl/src/main/java/ru/softshaper/services/security/token/storage/MemoryTokenStorage.java:18-37 | over every run with fresh ids the maps stay inverse and an id out of use stays out |
| `MemoryTokens.SupersededNeverFound` | security/security-impl/src/main/java/ru/softshaper/services/security/token/storage/MemoryTokenStorage.java:18-37 | whenever a login that has a token gets another, the first one's id is not found after any further calls |
| `MemoryTokens.EverySuperseded` | security/security-impl/src/main/java/ru/softshaper/services/security/token/storage/MemoryTokenStorage.java:18-37 | so in any run from the empty store, at whatever point the second token is created |
| `MemoryTokens.EveryAnswer` | security/security-impl/src/main/java/ru/softshaper/services/security/token/TokenManagerImpl.java:19-35 | after any run from the empty store a lookup answers for the login whose current token has the id: that token up to and at its expiration, expired after it, no token when there is no such login |
| `MemoryTokens.CreatedIsAnswered` | security/security-impl/src/main/java/ru/softshaper/services/security/token/TokenManagerImpl.java:19-35 | a created token is answered by every later lookup until it expires, as long as its login gets no other and no lookup comes after its expiration |
| `TableView.TableColumnsMembers` | admin/src/main/java/ru/softshaper/view/controller/ViewObjectController.java:99-110 | the identifier column comes first, and the others are exactly the table fields |
| `TableView.ColumnsInOrder` | admin/src/main/java/ru/softshaper/view/controller/ViewObjectController.java:99-110 | behind the identifier the columns stand in the order of the class's fields |
| `TableView.ColumnsDistinct` | admin/src/main/java/ru/softshaper/view/controller/ViewObjectController.java:99-110 | no column stands twice |
| `TableView.RowCells` | admin/src/main/java/ru/softshaper/view/controller/ViewObjectController.java:249-297 | a row has one cell for each column, at its position: the id, the value of a field that is no link, and for a LINK the listed object whose id the value prints, or null when the value is null, the field links to no class or no such object is listed |
| `TableView.CollectColumns` | admin/src/main/java/ru/softshaper/view/controller/ViewObjectController.java:213-231 | after the walk every table column lists its value for each object in order, and there is no other column |
| `TableView.ListByIdsFinds` | admin/src/main/java/ru/softshaper/view/controller/ViewObjectController.java:275-289 | one query for a whole set of ids finds for each of them what a query for it alone finds |
| `TableView.MapById` | admin/src/main/java/ru/softshaper/view/controller/ViewObjectController.java:280-289 | the map from id to view answers exactly as a search of the list |
| `TableView.FillLinkColumn` | admin/src/main/java/ru/softshaper/view/controller/ViewObjectController.java:263-297 | a resolved column keeps its length and holds for each value the view of that one id or null; it fails exactly when ids are present and the field links to no class |
| `TableView.ResolveLinks` | admin/src/main/java/ru/softshaper/view/controller/ViewObjectController.java:232-244 | after the loop every column holds its final cells; it fails exactly on a LINK table field with values and no linked class |
| `TableView.ConvertTableObjects` | admin/src/main/java/ru/softshaper/view/controller/ViewObjectController.java:206-261 | row i is object i, in input order; cell c is that object's value for the field, for LINK the view found by looking up that one id or null; the total defaults to the row count |
| `UniversalLink.LastAt` | admin/src/main/java/ru/softshaper/view/controller/attr/UniversalLinkAttrController.java:49-56 | the position of an `@` with no `@` behind it, absent exactly when there is none |
| `UniversalLink.ParseIff` | admin/src/main/java/ru/softshaper/view/controller/attr/UniversalLinkAttrController.java:49-56 | a text reads as an id and a code exactly when it is their print, the id is not empty and the code free of `@` |
| `UniversalLink.RoundTripIff` | meta/meta-impl/src/main/java/ru/softshaper/audit/listeners/AuditObjectChangeListener.java:62-71 | a printed link reads back as its own id and code exactly when the id is not empty and the code free of `@` |
| `UniversalLink.PrintInjective` | meta/meta-impl/src/main/java/ru/softshaper/audit/listeners/AuditObjectChangeListener.java:62-106 | among ids free of `@`, or codes free of it, different objects print different links |
| `UniversalLink.ReadIdsPrintApart` | meta/meta-impl/src/main/java/ru/softshaper/audit/listeners/AuditObjectChangeListener.java:62-106 | ids that Long.valueOf has read print different links for different texts, whatever the class codes are |
| `UniversalLink.ShowsOwnTitle` | admin/src/main/java/ru/softshaper/view/controller/attr/UniversalLinkAttrController.java:81-97 | a link printed from the number of an existing object of a known database class shows that object's title in a table |
| `UniversalLink.PrintedLinkShows` | admin/src/main/java/ru/softshaper/view/controller/attr/UniversalLinkAttrController.java:81-97 | a printed link of a known class shows the title found for its id and otherwise itself; for a database class an id that is no number fails |
| `UniversalLink.ValueRaisesIff` | admin/src/main/java/ru/softshaper/view/controller/attr/UniversalLinkAttrController.java:81-97 | a table value fails exactly when it is the print of an id that is no number and the code of a known database class |
| `UniversalLink.OtherTextShown` | admin/src/main/java/ru/softshaper/view/controller/attr/UniversalLinkAttrController.java:81-97 | text that is no link of a known class is shown as it is |
| `AuditHistory.AuditObjectChangeListener.OnObjectUpdate` | meta/meta-impl/src/main/java/ru/softshaper/audit/listeners/AuditObjectChangeListener.java:74-83 | one entry with the printed link is appended |
| `AuditHistory.AuditObjectChangeListener.OnObjectDelete` | meta/meta-impl/src/main/java/ru/softshaper/audit/listeners/AuditObjectChangeListener.java:86-94 | one entry without a link is appended |
| `AuditHistory.FetchIsOwnIff` | meta/meta-impl/src/main/java/ru/softshaper/audit/utils/ShowAuditHistory.java:52-56 | the entries fetched for an object are exactly its own, in order, if and only if no other object in the log prints the same link |
| `AuditHistory.OwnStepsMembers` | meta/meta-impl/src/main/java/ru/softshaper/audit/utils/ShowAuditHistory.java:52-56 | an object's own steps are its creations, updates and executions, each as often as it happened, and never a deletion |
| `AuditHistory.ReadIdsUnambiguous` | meta/meta-impl/src/main/java/ru/softshaper/datasource/meta/ObjectDataSourceImpl.java:285-326 | linked ids have been read as numbers, so no other object's link passes for that of an id free of `@`, whatever the class codes are |
| `AuditHistory.NewestFirst` | meta/meta-impl/src/main/java/ru/softshaper/audit/utils/ShowAuditHistory.java:52-63 | whatever the clock did, the messages are a stable date sort of the fetched entries reversed, so dates never increase, and nothing found is reported exactly when nothing was fetched |
| `AuditHistory.HistoryIsOwnEvents` | meta/meta-impl/src/main/java/ru/softshaper/audit/utils/ShowAuditHistory.java:52-63 | under a non-decreasing clock the history is exactly the creations, updates and executions under that id, latest first, and never a deletion |
| `AuditHistory.HistoryCompleteIff` | meta/meta-impl/src/main/java/ru/softshaper/audit/utils/ShowAuditHistory.java:52-63 | the history under an object's number lists all changes of that object, latest first, if and only if each was sent under the id as it is printed |
| `AuditHistory.PaddedIdMissed` | meta/meta-impl/src/main/java/ru/softshaper/audit/listeners/AuditObjectChangeListener.java:74-83 | an update sent as `007` is logged as `007@c` and is missing from the history of object 7 |

## Left out

- NOT, IN and BETWEEN nodes of the condition language: NOT dispatches on itself without end, and the others are not implemented in either visitor.
- ConvertToJooq.ComparePreservedIffSafe: for text operations on number and boolean columns one direction only; an operand longer than every number, or with a letter in it, agrees there whatever else it holds.
- ConvertToJooq.ConversionPreservesMeaning: one direction only; a tree with an unsafe comparison can still agree, for instance when another branch decides on every row, so the exact condition is stated comparison by comparison.
- Sql.Eval: the intended meaning of jOOQ's operators (IN as set membership); rendering, binding and overload choice are not part of this model.
- QueryService.SemiJoin: linked classes have 64-bit identifiers, as every class of the database source has.
- QueryService.LinkedIds: the code asks the data source of the queried class for the linked objects too; the model has both classes in the one database behind it, and a linked class served by another source is not modelled.
- QueryService.GetObjectList: JSON and Base64 decoding of the query string, and the views built from the answer.
- QueryService.Select: ORDER BY, OFFSET and LIMIT of the database source, which depend on the database's collation; security checks and the ACL join.
- InMemorySource.GetObjects: null elements of the source collection; sorting is by insertion, and StableSort says why another comparison sort answers and raises alike.
- InMemorySource.PagesCoverSelection: at most 2^31-1 objects, the largest a Java list can report, with field values in the range of their boxes.
- Values.ParseNum: digits outside ASCII, which Long.valueOf also reads.
- Values.Value: decimals, doubles, dates and time zones; lower case goes character by character; strings are sequences of characters, not of UTF-16 units.
- Conditions.Check: collection operands of the text operations are answered with an error unless the value is null; their printed form is not modelled.
- ConvertToJooq.ConvertCompare: text operations with a collection, whose printed form makes the pattern, are refused; against null on a LINK field the code's pattern holds the print of jOOQ's null cast, the model's that of null.
- MetaInitializer.MetaInitializerImpl.Init: an id comes with one code, being the key of the one row that holds both; names and security flags of classes, and the event posted at the end.
- MetaInitializer.LoadClasses: the classes of one loader come in a fixed order, where the code walks a hash map; with distinct codes that order is immaterial.
- MetaInitializer.BuildField: the id of a static field is taken as already drawn; FieldIds proves that drawing it again changes nothing.
- MetaGraphProofs.GraphOrderFree: the order of fields inside a class does depend on the loader order, and so is not claimed; nor is anything of classes that two loaders share.
- MetaRecords.FindTarget: a database id is the text its decimal form prints; several fields with one id are resolved to the first, where the stream promises any.
- FieldIds.DynamicFields.IdOf: other writers of the field table, and the failure of the lookup when a class and code are stored twice.
- ObjectStore.ObjectDataSource.CreateObject: the sequence values drawn before a failure of the database itself, such as a violated foreign key; the walk over submitted values follows the class's fields, which is immaterial because columns and link tables are distinct.
- ObjectStore.ObjectDataSource.UpdateObject: transactions beyond a refused operation changing nothing; security checks; of an unknown field and an id that is no number the field is reported first, where the code's hash map may yield either.
- ObjectStore.WellFormedClass: a field on the id column, whose submitted value the code overwrites with the drawn id.
- ObjectStore.Indexator.FullIndex: classes whose data source raises are skipped by the code and absent from this model; documents are keyed by class code and id, the Elasticsearch client is not part of this model.
- ObjectStoreProofs.RunKeepsIndex: events are delivered synchronously, as the Guava event bus does on the posting thread.
- DbTokens.TokenManager.CreateToken: the generated id and the expiration date computed from the calendar are parameters.
- DbTokens.EveryReachableState: the purge itself is taken to succeed; calls are atomic steps; concurrent callers of the stores and the cache are not modelled.
- MemoryTokens.EveryRun: ids are fresh, as random UUIDs are taken to be.
- TableView.ConvertTableObjects: objects of a linked class have distinct ids (primary keys), and the attribute controllers' table values are parameters.
- UniversalLink.ValueByTable: the inner-object and browse views of a single object, which only differ in what they fetch after the same parse.
- AuditHistory.Execute: the log is fetched in the order it was written; the wording of descriptions and the printed date are carried as data.
- Runtime DDL, user and role management, password hashing, REST and Spring wiring, WebSocket, Mongo, Drools, Jasper, Camunda processes and the browser bundle: easy or outside the logic modelled here.
