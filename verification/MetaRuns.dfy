/** Initialisation after initialisation: what the registry and the data sources say of current and stale classes. */
module MetaRuns {
  import opened Wrappers
  import opened MetaRecords
  import opened MetaObjects
  import opened MetaStorage
  import opened DataSources
  import opened MetaInitializer

  /** The class objects of a load: one per record, with its id, code and table. */
  ghost predicate OfRecords(result: seq<MetaClass>, classes: seq<ClassRecord>) {
    && |result| == |classes|
    && forall k | 0 <= k < |classes| ::
         result[k].id == classes[k].id && result[k].code == classes[k].code && result[k].table == classes[k].table
  }

  ghost predicate OfHistory(results: seq<seq<MetaClass>>, history: seq<seq<MetaLoader>>) {
    |results| == |history| && forall i | 0 <= i < |history| :: OfRecords(results[i], AllClasses(history[i]))
  }

  method InitOnce(initializer: MetaInitializerImpl, loaders: seq<MetaLoader>) returns (result: seq<MetaClass>)
    requires OneRowEach(AllClasses(loaders))
    modifies initializer.metaStorage, initializer.dataSourceStorage
    ensures OfRecords(result, AllClasses(loaders))
    ensures initializer.metaStorage.Maps() == PublishAll(old(initializer.metaStorage.Maps()), result)
    ensures initializer.dataSourceStorage.dataSources == SourcesOf(AllClasses(loaders))
  {
    var byId;
    result, byId := initializer.Init(loaders);
  }

  lemma HistoryNext(results: seq<seq<MetaClass>>, result: seq<MetaClass>, history: seq<seq<MetaLoader>>, i: nat)
    requires i < |history| && OfHistory(results, history[..i]) && OfRecords(result, AllClasses(history[i]))
    ensures OfHistory(results + [result], history[..i + 1])
    ensures RegisterAll(results + [result]) == PublishAll(RegisterAll(results), result)
  {
    assert (results + [result])[..|results|] == results;
  }

  /** Several initialisations on one registry, each over the loaders as they read at the time. */
  method InitAll(initializer: MetaInitializerImpl, history: seq<seq<MetaLoader>>) returns (results: seq<seq<MetaClass>>)
    requires initializer.metaStorage.Maps() == NO_CLASSES
    requires forall loaders | loaders in history :: OneRowEach(AllClasses(loaders))
    modifies initializer.metaStorage, initializer.dataSourceStorage
    ensures OfHistory(results, history) && initializer.metaStorage.Maps() == RegisterAll(results)
    ensures history != [] ==>
              initializer.dataSourceStorage.dataSources == SourcesOf(AllClasses(history[|history| - 1]))
  {
    results := [];
    for i := 0 to |history|
      invariant OfHistory(results, history[..i])
      invariant initializer.metaStorage.Maps() == RegisterAll(results)
      invariant i > 0 ==> initializer.dataSourceStorage.dataSources == SourcesOf(AllClasses(history[i - 1]))
    {
      assert history[i] in history;
      var result := InitOnce(initializer, history[i]);
      HistoryNext(results, result, history, i);
      results := results + [result];
    }
    assert history[..|history|] == history;
  }

  // ---------------------------------------------------------------- what a run leaves behind

  function AllRows(history: seq<seq<MetaLoader>>): seq<ClassRecord> {
    if history == [] then [] else AllRows(history[..|history| - 1]) + AllClasses(history[|history| - 1])
  }

  /** A class keeps its code and its table for as long as it is loaded. */
  ghost predicate RowsStay(history: seq<seq<MetaLoader>>) {
    forall c, d | c in AllRows(history) && d in AllRows(history) && c.id == d.id ::
      c.code == d.code && c.table == d.table
  }

  lemma {:induction false} BatchRow(results: seq<seq<MetaClass>>, history: seq<seq<MetaLoader>>, c: MetaClass)
    returns (r: ClassRecord)
    requires OfHistory(results, history) && c in Batches(results)
    ensures r in AllRows(history) && r.id == c.id && r.code == c.code && r.table == c.table
  {
    var n := |results| - 1;
    if c in results[n] {
      var k :| 0 <= k < |results[n]| && results[n][k] == c;
      r := AllClasses(history[n])[k];
    } else {
      r := BatchRow(results[..n], history[..n], c);
    }
  }

  lemma RowsFixCodeAndTable(results: seq<seq<MetaClass>>, history: seq<seq<MetaLoader>>)
    requires OfHistory(results, history) && RowsStay(history)
    ensures IdFixesCodeAndTable(Batches(results))
  {
    forall a, b | a in Batches(results) && b in Batches(results) && a.id == b.id
      ensures a.code == b.code && a.table == b.table
    {
      var r := BatchRow(results, history, a);
      var q := BatchRow(results, history, b);
    }
  }

  /** By id the registry answers with an object of the last batch that has the id. */
  lemma {:induction false} PublishedById(maps: ClassMaps, batch: seq<MetaClass>, id: string)
    ensures var after := PublishAll(maps, batch).byId;
            if id in Ids(batch) then id in after && after[id] in batch && after[id].id == id
            else (id in after <==> id in maps.byId) && (id in after ==> after[id] == maps.byId[id])
  {
    if batch != [] {
      PublishedById(maps, batch[..|batch| - 1], id);
      assert batch == batch[..|batch| - 1] + [batch[|batch| - 1]];
    }
  }

  lemma LoadedIds(result: seq<MetaClass>, classes: seq<ClassRecord>)
    requires OfRecords(result, classes)
    ensures Ids(result) == ClassIds(classes)
  {
    forall id | id in Ids(result) ensures id in ClassIds(classes) {
      var k :| 0 <= k < |result| && result[k].id == id;
      assert classes[k] in classes;
    }
    forall id | id in ClassIds(classes) ensures id in Ids(result) {
      var k :| 0 <= k < |classes| && classes[k].id == id;
      assert result[k] in result;
    }
  }

  /**
   * After any number of initialisations: lookups by code and by table agree with the lookup by id, every
   * class ever loaded is still answered by its id, and of the classes the registry answers with exactly
   * the objects of the last load have a data source.
   */
  lemma AfterEveryInit(registry: MetaStorageImpl, sources: DataSourceStorage, history: seq<seq<MetaLoader>>,
                       results: seq<seq<MetaClass>>)
    requires history != [] && OfHistory(results, history) && RowsStay(history)
    requires registry.Maps() == RegisterAll(results)
    requires sources.dataSources == SourcesOf(AllClasses(history[|history| - 1]))
    ensures AnswersAgree(registry)
    ensures forall c | c in Batches(results) :: registry.GetMetaClassById(c.id) != null
    ensures forall id ::
              var c := registry.GetMetaClassById(id);
              c != null ==> (sources.Get(c).Some? <==> c in results[|results| - 1])
  {
    RowsFixCodeAndTable(results, history);
    EveryHistory(registry, results);
    forall id | registry.GetMetaClassById(id) != null
      ensures var c := registry.GetMetaClassById(id); sources.Get(c).Some? <==> c in results[|results| - 1]
    {
      ServedIsCurrent(registry, sources, history, results, id);
    }
  }

  lemma ServedIsCurrent(registry: MetaStorageImpl, sources: DataSourceStorage, history: seq<seq<MetaLoader>>,
                        results: seq<seq<MetaClass>>, id: string)
    requires history != [] && OfHistory(results, history) && registry.Maps() == RegisterAll(results)
    requires sources.dataSources == SourcesOf(AllClasses(history[|history| - 1]))
    requires registry.GetMetaClassById(id) != null
    ensures var c := registry.GetMetaClassById(id);
            c.id == id && (sources.Get(c).Some? <==> c in results[|results| - 1])
  {
    var n, c := |results| - 1, registry.GetMetaClassById(id);
    ByIdHasId(results, id);
    PublishedById(RegisterAll(results[..n]), results[n], id);
    LoadedIds(results[n], AllClasses(history[n]));
    SourcesOfIds(AllClasses(history[n]));
    assert c in results[n] ==> c.id in Ids(results[n]);
  }

  lemma {:induction false} ByIdHasId(results: seq<seq<MetaClass>>, id: string)
    requires id in RegisterAll(results).byId
    ensures RegisterAll(results).byId[id].id == id
  {
    var n := |results| - 1;
    PublishedById(RegisterAll(results[..n]), results[n], id);
    if id !in Ids(results[n]) {
      ByIdHasId(results[..n], id);
    }
  }

  /** A class object of an earlier load: whoever still holds it is served exactly when its id is in the last load. */
  lemma StaleServedIff(sources: DataSourceStorage, history: seq<seq<MetaLoader>>, results: seq<seq<MetaClass>>,
                       i: nat, c: MetaClass)
    requires i < |history| && OfHistory(results, history) && c in results[i]
    requires sources.dataSources == SourcesOf(AllClasses(history[|history| - 1]))
    ensures sources.Get(c).Some? <==> exists d | d in results[|results| - 1] :: d.id == c.id
  {
    var last := AllClasses(history[|history| - 1]);
    LoadedIds(results[|results| - 1], last);
    SourcesOfIds(last);
    assert c.id in Ids(results[|results| - 1]) <==> exists d | d in results[|results| - 1] :: d.id == c.id;
  }
}
