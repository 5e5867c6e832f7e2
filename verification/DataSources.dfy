/** Which data source serves which class: a map keyed by class equality, that is, by class id. */
module DataSources {
  import opened Wrappers
  import opened MetaObjects

  function Ids(clazzs: seq<MetaClass>): set<string> {
    set c | c in clazzs :: c.id
  }

  class DataSourceStorage {
    /** Class id to data source: two class objects with one id are the same key. */
    var dataSources: map<string, string>

    constructor ()
      ensures dataSources == map[]
    {
      dataSources := map[];
    }

    method Register(clazzs: seq<MetaClass>, dataSource: string)
      modifies this
      ensures dataSources.Keys == old(dataSources.Keys) + Ids(clazzs)
      ensures forall id | id in dataSources ::
                dataSources[id] == if id in Ids(clazzs) then dataSource else old(dataSources)[id]
    {
      var dataSource2 := dataSources;
      for i := 0 to |clazzs|
        invariant dataSource2.Keys == dataSources.Keys + Ids(clazzs[..i])
        invariant forall id | id in dataSource2 ::
                  dataSource2[id] == if id in Ids(clazzs[..i]) then dataSource else dataSources[id]
        invariant dataSources == old(dataSources)
      {
        assert clazzs[..i + 1] == clazzs[..i] + [clazzs[i]];
        dataSource2 := dataSource2[clazzs[i].id := dataSource];
      }
      assert clazzs[..|clazzs|] == clazzs;
      dataSources := dataSource2;
    }

    /** Replaces everything: a class that is not in the map is served no longer. */
    method RegisterAllWithClean(dataSourceMap: map<string, string>)
      modifies this
      ensures dataSources == dataSourceMap
    {
      dataSources := dataSourceMap;
    }

    function Get(clazz: MetaClass): Option<string>
      reads this
    {
      if clazz.id in dataSources then Some(dataSources[clazz.id]) else None
    }
  }
}
