/** The registry of meta classes: maps that every registration copies, updates in order, and swaps. */
module MetaStorage {
  import opened Wrappers
  import opened MetaObjects

  datatype ClassMaps = ClassMaps(byTable: map<string, MetaClass>, byCode: map<string, MetaClass>, byId: map<string,
                                 MetaClass>)

  function Publish(maps: ClassMaps, c: MetaClass): ClassMaps {
    ClassMaps(maps.byTable[c.table := c], maps.byCode[c.code := c], maps.byId[c.id := c])
  }

  function PublishAll(maps: ClassMaps, classes: seq<MetaClass>): ClassMaps {
    if classes == [] then maps else Publish(PublishAll(maps, classes[..|classes| - 1]), classes[|classes| - 1])
  }

  function PublishFields(byId: map<string, MetaField>, fields: seq<MetaField>): map<string, MetaField> {
    if fields == [] then byId
    else PublishFields(byId, fields[..|fields| - 1])[fields[|fields| - 1].id := fields[|fields| - 1]]
  }

  function PublishAllFields(byId: map<string, MetaField>, classes: seq<MetaClass>): map<string, MetaField>
    reads classes
  {
    if classes == [] then byId
    else PublishFields(PublishAllFields(byId, classes[..|classes| - 1]), classes[|classes| - 1].fields)
  }

  class MetaStorageImpl {
    var metaClassByTable: map<string, MetaClass>
    var metaClassByCode: map<string, MetaClass>
    var metaClassById: map<string, MetaClass>
    var metaFieldById: map<string, MetaField>

    function Maps(): ClassMaps
      reads this
    {
      ClassMaps(metaClassByTable, metaClassByCode, metaClassById)
    }

    constructor ()
      ensures Maps() == ClassMaps(map[], map[], map[]) && metaFieldById == map[]
    {
      metaClassByTable, metaClassByCode, metaClassById, metaFieldById := map[], map[], map[], map[];
    }

    method Register(metas: seq<MetaClass>)
      modifies this
      ensures Maps() == PublishAll(old(Maps()), metas)
      ensures metaFieldById == PublishAllFields(old(metaFieldById), metas)
    {
      var maps2 := Maps();
      var metaFieldById2 := metaFieldById;
      for i := 0 to |metas|
        invariant maps2 == PublishAll(old(Maps()), metas[..i])
        invariant metaFieldById2 == PublishAllFields(old(metaFieldById), metas[..i])
      {
        assert metas[..i + 1][..i] == metas[..i];
        maps2 := Publish(maps2, metas[i]);
        metaFieldById2 := PutFields(metaFieldById2, metas[i].fields);
      }
      assert metas[..|metas|] == metas;
      metaClassByTable, metaClassByCode, metaClassById := maps2.byTable, maps2.byCode, maps2.byId;
      metaFieldById := metaFieldById2;
    }

    /** An empty code is answered without a lookup. */
    function GetMetaClass(code: string): MetaClass?
      reads this
    {
      if code == "" || code !in metaClassByCode then null else metaClassByCode[code]
    }

    function GetMetaClassById(id: string): MetaClass?
      reads this
    {
      if id in metaClassById then metaClassById[id] else null
    }

    function GetMetaClassByTable(name: string): MetaClass?
      reads this
    {
      if name in metaClassByTable then metaClassByTable[name] else null
    }

    function GetMetaField(id: string): MetaField?
      reads this
    {
      if id in metaFieldById then metaFieldById[id] else null
    }
  }

  method PutFields(byId: map<string, MetaField>, fields: seq<MetaField>) returns (r: map<string, MetaField>)
    ensures r == PublishFields(byId, fields)
  {
    r := byId;
    for i := 0 to |fields|
      invariant r == PublishFields(byId, fields[..i])
    {
      assert fields[..i + 1][..i] == fields[..i];
      r := r[fields[i].id := fields[i]];
    }
    assert fields[..|fields|] == fields;
  }

  // ---------------------------------------------------------------- coherence

  /** Found by code or by table, then by its id: the same object. */
  predicate Coherent(maps: ClassMaps) {
    && (forall code | code in maps.byCode ::
          && maps.byCode[code].code == code && maps.byCode[code].id in maps.byId
          && maps.byId[maps.byCode[code].id] == maps.byCode[code])
    && (forall t | t in maps.byTable ::
          && maps.byTable[t].table == t && maps.byTable[t].id in maps.byId
          && maps.byId[maps.byTable[t].id] == maps.byTable[t])
  }

  /** Publishing one class keeps coherence exactly when its id is not published under another code or table. */
  lemma PublishCoherentIff(maps: ClassMaps, c: MetaClass)
    requires Coherent(maps)
    ensures Coherent(Publish(maps, c)) <==>
            && (forall code | code in maps.byCode && maps.byCode[code].id == c.id :: code == c.code)
            && (forall t | t in maps.byTable && maps.byTable[t].id == c.id :: t == c.table)
  {
    var after := Publish(maps, c);
    if code :| code in maps.byCode && maps.byCode[code].id == c.id && code != c.code {
      assert code in after.byCode && after.byCode[code] == maps.byCode[code] && after.byId[c.id] == c;
      assert maps.byCode[code].code == code;
    }
    if t :| t in maps.byTable && maps.byTable[t].id == c.id && t != c.table {
      assert t in after.byTable && after.byTable[t] == maps.byTable[t] && after.byId[c.id] == c;
      assert maps.byTable[t].table == t;
    }
  }

  /** The classes of a whole history: an id always comes with one code and one table. */
  predicate IdFixesCodeAndTable(classes: seq<MetaClass>) {
    forall a, b | a in classes && b in classes && a.id == b.id :: a.code == b.code && a.table == b.table
  }

  const NO_CLASSES := ClassMaps(map[], map[], map[])

  lemma {:induction false} CodeOrigin(classes: seq<MetaClass>, code: string)
    ensures var byCode := PublishAll(NO_CLASSES, classes).byCode;
            && (code in byCode <==> exists c | c in classes :: c.code == code)
            && (code in byCode ==> byCode[code] in classes)
  {
    if classes != [] {
      CodeOrigin(classes[..|classes| - 1], code);
      assert classes == classes[..|classes| - 1] + [classes[|classes| - 1]];
    }
  }

  lemma {:induction false} TableOrigin(classes: seq<MetaClass>, table: string)
    requires table in PublishAll(NO_CLASSES, classes).byTable
    ensures PublishAll(NO_CLASSES, classes).byTable[table] in classes
  {
    if classes != [] {
      var front, last := classes[..|classes| - 1], classes[|classes| - 1];
      assert classes == front + [last];
      if last.table != table {
        TableOrigin(front, table);
      }
    }
  }

  lemma OneMoreCoherent(front: seq<MetaClass>, c: MetaClass)
    requires IdFixesCodeAndTable(front + [c]) && Coherent(PublishAll(NO_CLASSES, front))
    ensures Coherent(Publish(PublishAll(NO_CLASSES, front), c))
  {
    var maps := PublishAll(NO_CLASSES, front);
    forall code | code in maps.byCode ensures maps.byCode[code] in front + [c] {
      CodeOrigin(front, code);
    }
    forall t | t in maps.byTable ensures maps.byTable[t] in front + [c] {
      TableOrigin(front, t);
    }
    PublishCoherentIff(maps, c);
  }

  lemma {:induction false} HistoryCoherent(classes: seq<MetaClass>)
    requires IdFixesCodeAndTable(classes)
    ensures Coherent(PublishAll(NO_CLASSES, classes))
  {
    if classes != [] {
      var front, c := classes[..|classes| - 1], classes[|classes| - 1];
      assert classes == front + [c];
      HistoryCoherent(front);
      OneMoreCoherent(front, c);
    }
  }

  /** The classes of a history of registrations, one batch after the other. */
  function Batches(history: seq<seq<MetaClass>>): seq<MetaClass> {
    if history == [] then [] else Batches(history[..|history| - 1]) + history[|history| - 1]
  }

  function RegisterAll(history: seq<seq<MetaClass>>): ClassMaps {
    if history == [] then NO_CLASSES
    else PublishAll(RegisterAll(history[..|history| - 1]), history[|history| - 1])
  }

  lemma {:induction false} PublishConcat(maps: ClassMaps, a: seq<MetaClass>, b: seq<MetaClass>)
    ensures PublishAll(maps, a + b) == PublishAll(PublishAll(maps, a), b)
  {
    if b == [] {
      assert a + b == a;
    } else {
      assert (a + b)[..|a + b| - 1] == a + b[..|b| - 1];
      PublishConcat(maps, a, b[..|b| - 1]);
    }
  }

  lemma {:induction false} RegisterAllIsPublish(history: seq<seq<MetaClass>>)
    ensures RegisterAll(history) == PublishAll(NO_CLASSES, Batches(history))
  {
    if history != [] {
      RegisterAllIsPublish(history[..|history| - 1]);
      PublishConcat(NO_CLASSES, Batches(history[..|history| - 1]), history[|history| - 1]);
    }
  }

  /** No later class of the batch has the id or the code. */
  predicate LastPublished(batch: seq<MetaClass>, k: nat)
    requires k < |batch|
  {
    forall j | k < j < |batch| :: batch[j].id != batch[k].id && batch[j].code != batch[k].code
  }

  predicate LastOfTable(batch: seq<MetaClass>, k: nat)
    requires k < |batch|
  {
    forall j | k < j < |batch| :: batch[j].table != batch[k].table
  }

  lemma {:induction false} FreshEntries(maps: ClassMaps, batch: seq<MetaClass>, k: nat)
    requires k < |batch| && LastPublished(batch, k)
    ensures var after := PublishAll(maps, batch);
            && batch[k].code in after.byCode && after.byCode[batch[k].code] == batch[k]
            && batch[k].id in after.byId && after.byId[batch[k].id] == batch[k]
    ensures LastOfTable(batch, k) ==>
              var after := PublishAll(maps, batch);
              batch[k].table in after.byTable && after.byTable[batch[k].table] == batch[k]
  {
    if k < |batch| - 1 {
      var front := batch[..|batch| - 1];
      assert forall j | k < j < |front| :: front[j] == batch[j];
      FreshEntries(maps, front, k);
    }
  }

  /**
   * After a registration the registry answers with each class of the batch that no later one supersedes:
   * by its id always, by its code exactly when that is not empty, by its table when no later one has it.
   */
  lemma FreshlyPublished(storage: MetaStorageImpl, maps: ClassMaps, batch: seq<MetaClass>, k: nat)
    requires storage.Maps() == PublishAll(maps, batch) && k < |batch| && LastPublished(batch, k)
    ensures storage.GetMetaClassById(batch[k].id) == batch[k]
    ensures storage.GetMetaClass(batch[k].code) == batch[k] <==> batch[k].code != ""
    ensures LastOfTable(batch, k) ==> storage.GetMetaClassByTable(batch[k].table) == batch[k]
  {
    FreshEntries(maps, batch, k);
  }

  lemma {:induction false} NothingLost(maps: ClassMaps, batch: seq<MetaClass>)
    ensures maps.byCode.Keys <= PublishAll(maps, batch).byCode.Keys
    ensures maps.byId.Keys <= PublishAll(maps, batch).byId.Keys
    ensures maps.byTable.Keys <= PublishAll(maps, batch).byTable.Keys
    ensures forall c | c in batch :: c.code in PublishAll(maps, batch).byCode
    ensures forall c | c in batch :: c.id in PublishAll(maps, batch).byId && c.table in PublishAll(maps, batch).byTable
  {
    if batch != [] {
      NothingLost(maps, batch[..|batch| - 1]);
      assert batch == batch[..|batch| - 1] + [batch[|batch| - 1]];
    }
  }

  /** Every answer by code or by table is also the answer to its own id, and has the code or table asked for. */
  ghost predicate AnswersAgree(storage: MetaStorageImpl)
    reads storage
  {
    && (forall code ::
          var c := storage.GetMetaClass(code);
          c != null ==> c.code == code && storage.GetMetaClassById(c.id) == c)
    && (forall name ::
          var c := storage.GetMetaClassByTable(name);
          c != null ==> c.table == name && storage.GetMetaClassById(c.id) == c)
  }

  /**
   * Over any history of registrations in which an id fixes code and table: lookups agree, every class
   * ever registered is still answered for by id and table, and by code exactly when that is not empty.
   */
  lemma EveryHistory(storage: MetaStorageImpl, history: seq<seq<MetaClass>>)
    requires IdFixesCodeAndTable(Batches(history)) && storage.Maps() == RegisterAll(history)
    ensures AnswersAgree(storage)
    ensures forall c | c in Batches(history) ::
              && (storage.GetMetaClass(c.code) != null <==> c.code != "")
              && storage.GetMetaClassById(c.id) != null && storage.GetMetaClassByTable(c.table) != null
  {
    RegisterAllIsPublish(history);
    HistoryCoherent(Batches(history));
    NothingLost(NO_CLASSES, Batches(history));
  }

  /** The batch registered last is the one found. */
  lemma LastBatchFound(storage: MetaStorageImpl, history: seq<seq<MetaClass>>, k: nat)
    requires storage.Maps() == RegisterAll(history) && history != []
    requires k < |history[|history| - 1]| && LastPublished(history[|history| - 1], k)
    ensures var c := history[|history| - 1][k];
            && storage.GetMetaClassById(c.id) == c
            && (storage.GetMetaClass(c.code) == c <==> c.code != "")
  {
    FreshlyPublished(storage, RegisterAll(history[..|history| - 1]), history[|history| - 1], k);
  }

  // ---------------------------------------------------------------- fields by id

  lemma {:induction false} FieldsPublished(byId: map<string, MetaField>, fields: seq<MetaField>, id: string)
    ensures id in PublishFields(byId, fields) <==> id in byId || exists f | f in fields :: f.id == id
    ensures id in PublishFields(byId, fields) ==>
              (PublishFields(byId, fields)[id].id == id && PublishFields(byId, fields)[id] in fields)
              || (id in byId && PublishFields(byId, fields)[id] == byId[id] && forall f | f in fields :: f.id != id)
  {
    if fields != [] {
      FieldsPublished(byId, fields[..|fields| - 1], id);
      assert fields == fields[..|fields| - 1] + [fields[|fields| - 1]];
    }
  }

  lemma {:induction false} FreshFieldEntries(byId: map<string, MetaField>, classes: seq<MetaClass>, c: MetaClass,
                                             f: MetaField)
    requires c in classes && f in c.fields
    requires forall d, g | d in classes && g in d.fields && g.id == f.id :: g == f
    ensures var after := PublishAllFields(byId, classes);
            f.id in after && after[f.id] == f
  {
    var front, last := classes[..|classes| - 1], classes[|classes| - 1];
    assert classes == front + [last];
    FieldsPublished(PublishAllFields(byId, front), last.fields, f.id);
    if f !in last.fields {
      FreshFieldEntries(byId, front, c, f);
    }
  }

  /** After a registration the registry answers a field's id with that field, when no other of the batch has the id. */
  lemma FreshFieldsFound(storage: MetaStorageImpl, byId: map<string, MetaField>, classes: seq<MetaClass>,
                         c: MetaClass, f: MetaField)
    requires storage.metaFieldById == PublishAllFields(byId, classes)
    requires c in classes && f in c.fields
    requires forall d, g | d in classes && g in d.fields && g.id == f.id :: g == f
    ensures storage.GetMetaField(f.id) == f
  {
    FreshFieldEntries(byId, classes, c, f);
  }
}
