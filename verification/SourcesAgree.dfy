/**
 * The two kinds of data source on the same records: for safe conditions the in-memory filters and the
 * database's where clause select the same objects.
 */
module SourcesAgree {
  import opened Wrappers
  import opened Values
  import opened Meta
  import opened Conditions
  import opened Sql
  import opened ConvertToJooq
  import opened QueryParams
  import opened QueryService
  import opened InMemorySource

  /** How an in-memory source reads the records of a database. */
  function RecordExtractor(rows: Rows): ObjectExtractor<Key> {
    ObjectExtractor((key: Key) => ShowInt(key.id),
                    (key: Key, f: Field) => if key in rows then Extractor(Record(rows, key))(f) else Null)
  }

  /** The objects of the class, in some order. */
  ghost predicate Lists(keys: seq<Key>, rows: Rows, cls: string) {
    forall key :: key in keys <==> key in rows && key.cls == cls
  }

  ghost predicate AllConform(rows: Rows, cls: string, schema: Schema) {
    forall key | key in rows && key.cls == cls :: Conforms(Record(rows, key), schema)
  }

  predicate SafeQuery(params: Params, schema: Schema) {
    params.condition.Some? ==> OnColumn(params.condition.value, schema) && Safe(params.condition.value, schema)
  }

  predicate HasIds(params: Params) {
    params.ids.Some? && params.ids.value != {}
  }

  predicate IdsRead(params: Params) {
    HasIds(params) ==> forall id | id in params.ids.value :: ParseNum(LongKind, id).Ok?
  }

  /** The record passes the condition, in memory and in the database alike. */
  predicate Passes(params: Params, db: Database, key: Key)
    requires key in db.rows
  {
    params.condition.Some? ==> KeepsRecord(params.condition.value, db.links, Record(db.rows, key))
  }

  /** The object is asked for: by the text of its id in memory, by the number in the database. */
  predicate AskedByText(params: Params, key: Key) {
    HasIds(params) ==> ShowInt(key.id) in params.ids.value
  }

  predicate AskedByNumber(params: Params, key: Key) {
    HasIds(params) ==> exists id | id in params.ids.value :: ParseNum(LongKind, id) == Ok(key.id)
  }

  lemma CheckAgrees(c: Condition, schema: Schema, links: LinkTables, rows: Rows, key: Key)
    requires OnColumn(c, schema) && Safe(c, schema) && key in rows && Conforms(Record(rows, key), schema)
    ensures Compiles(c, links)
    ensures Check(RecordExtractor(rows).Fields(key), c) == Ok(KeepsRecord(c, links, Record(rows, key)))
  {
    ConversionPreservesMeaning(c, schema, links);
    CheckSameReadings(RecordExtractor(rows).Fields(key), Extractor(Record(rows, key)), c);
  }

  /** The checker depends on what it reads only. */
  lemma {:induction false} CheckSameReadings(get: Field -> Value, other: Field -> Value, c: Condition)
    requires forall f :: get(f) == other(f)
    ensures Check(get, c) == Check(other, c)
  {
    match c
    case And(first, second) =>
      CheckSameReadings(get, other, first);
      CheckSameReadings(get, other, second);
    case Or(first, second) =>
      CheckSameReadings(get, other, first);
      CheckSameReadings(get, other, second);
    case Compare(field, _, _) =>
      assert get(field) == other(field);
  }

  /** In memory: the object is asked for by text and passes. */
  lemma AcceptMeaning(db: Database, params: Params, schema: Schema, key: Key)
    requires key in db.rows && SafeQuery(params, schema) && Conforms(Record(db.rows, key), schema)
    ensures Accept(RecordExtractor(db.rows), params, key) == Ok(AskedByText(params, key) && Passes(params, db, key))
  {
    if params.condition.Some? {
      CheckAgrees(params.condition.value, schema, db.links, db.rows, key);
    }
  }

  lemma IdListMeaning(params: Params, record: Row, key: Key)
    requires HasIds(params) && IdsRead(params) && Cell(record, ID_COLUMN) == Num(LongKind, key.id)
    ensures IdSet(params.ids.value).Ok?
    ensures Keeps(SqlIn(ID_COLUMN, IdSet(params.ids.value).value), record) <==> AskedByNumber(params, key)
  {
    var vs := IdSet(params.ids.value).value;
    forall id | id in params.ids.value && ParseNum(LongKind, id) == Ok(key.id) ensures Num(LongKind, key.id) in vs {
      assert Num(LongKind, ParseNum(LongKind, id).value) in vs;
    }
    if v :| v in vs && CompareValues(Eq, Num(LongKind, key.id), v).True? {
      var id :| id in params.ids.value && v == Num(LongKind, ParseNum(LongKind, id).value);
      assert ParseNum(LongKind, id) == Ok(key.id);
    }
    if AskedByNumber(params, key) {
      assert Num(LongKind, key.id) in vs && CompareValues(Eq, Num(LongKind, key.id), Num(LongKind, key.id)).True?;
    }
  }

  /** In the database: the object is asked for by number and passes. */
  lemma SelectedMeaning(db: Database, params: Params, schema: Schema, key: Key)
    requires key in db.rows && SafeQuery(params, schema) && IdsRead(params) && Conforms(Record(db.rows, key), schema)
    ensures Where(params, db.links).Ok?
    ensures Selected(Where(params, db.links).value, Record(db.rows, key)) <==>
            AskedByNumber(params, key) && Passes(params, db, key)
  {
    WhereMeaning(params, db.links, Record(db.rows, key));
    if params.condition.Some? {
      CheckAgrees(params.condition.value, schema, db.links, db.rows, key);
    }
    if HasIds(params) {
      IdListMeaning(params, Record(db.rows, key), key);
    }
  }

  function IdsOf(keys: seq<Key>): set<int> {
    set key | key in keys :: key.id
  }

  /** The in-memory source answers for every object, and keeps those asked for by text that pass. */
  lemma MemoryKeeps(db: Database, cls: string, keys: seq<Key>, params: Params, schema: Schema)
    requires Lists(keys, db.rows, cls) && AllConform(db.rows, cls, schema) && SafeQuery(params, schema)
    ensures Checkable(RecordExtractor(db.rows), params, keys)
    ensures forall key :: key in Filter(RecordExtractor(db.rows), params, keys) <==>
                          key in db.rows && key.cls == cls && AskedByText(params, key) && Passes(params, db, key)
  {
    var ex := RecordExtractor(db.rows);
    PullAllIsFilter(ex, params, keys);
    forall key | key in keys
      ensures Accept(ex, params, key) == Ok(AskedByText(params, key) && Passes(params, db, key))
    {
      AcceptMeaning(db, params, schema, key);
    }
  }

  /**
   * For a safe condition and an id list of numbers the two sources select the same ids if and only if no
   * object that passes is asked for by a text that reads as its id without being its print.
   */
  lemma SameSelectionIff(db: Database, cls: string, keys: seq<Key>, params: Params, schema: Schema)
    requires Lists(keys, db.rows, cls) && AllConform(db.rows, cls, schema) && PositiveIds(db.rows)
    requires SafeQuery(params, schema) && IdsRead(params)
    ensures Where(params, db.links).Ok?
    ensures IdsOf(Filter(RecordExtractor(db.rows), params, keys)) == Select(db, cls, Where(params, db.links).value) <==>
            forall key | key in db.rows && key.cls == cls && Passes(params, db, key) ::
              AskedByNumber(params, key) ==> AskedByText(params, key)
  {
    WhereRuns(db, params, schema);
    var kept := IdsOf(Filter(RecordExtractor(db.rows), params, keys));
    var selected := Select(db, cls, Where(params, db.links).value);
    MemoryKeeps(db, cls, keys, params, schema);
    forall key | key in db.rows && key.cls == cls
      ensures (key.id in kept <==> key.id in selected) <==>
              (Passes(params, db, key) && AskedByNumber(params, key) ==> AskedByText(params, key))
    {
      KeptAt(db, cls, keys, params, schema, key);
      SelectedAt(db, cls, params, schema, key);
      TextIsNumber(params, db.rows, key);
    }
    SameIdsIff(db.rows, cls, kept, selected);
  }

  /** Two sets of ids of the class are the same when they agree on its objects. */
  lemma SameIdsIff(rows: Rows, cls: string, a: set<int>, b: set<int>)
    requires forall id | id in a + b :: Key(cls, id) in rows
    ensures a == b <==> forall key | key in rows && key.cls == cls :: key.id in a <==> key.id in b
  {
    if forall key | key in rows && key.cls == cls :: key.id in a <==> key.id in b {
      forall id | id in a + b ensures id in a <==> id in b {
        assert Key(cls, id) in rows && Key(cls, id).cls == cls;
      }
      assert forall id :: id in a <==> id in b;
    }
  }

  lemma WhereRuns(db: Database, params: Params, schema: Schema)
    requires SafeQuery(params, schema) && IdsRead(params)
    ensures Where(params, db.links).Ok?
  {
    if params.condition.Some? {
      ConversionPreservesMeaning(params.condition.value, schema, db.links);
    }
  }

  lemma KeptAt(db: Database, cls: string, keys: seq<Key>, params: Params, schema: Schema, key: Key)
    requires Lists(keys, db.rows, cls) && AllConform(db.rows, cls, schema) && SafeQuery(params, schema)
    requires key in db.rows && key.cls == cls
    ensures key.id in IdsOf(Filter(RecordExtractor(db.rows), params, keys)) <==>
            AskedByText(params, key) && Passes(params, db, key)
  {
    MemoryKeeps(db, cls, keys, params, schema);
    var kept := Filter(RecordExtractor(db.rows), params, keys);
    if key.id in IdsOf(kept) {
      var other :| other in kept && other.id == key.id;
      assert other == key;
    }
  }

  lemma SelectedAt(db: Database, cls: string, params: Params, schema: Schema, key: Key)
    requires AllConform(db.rows, cls, schema) && SafeQuery(params, schema) && IdsRead(params)
    requires key in db.rows && key.cls == cls && Where(params, db.links).Ok?
    ensures key.id in Select(db, cls, Where(params, db.links).value) <==>
            AskedByNumber(params, key) && Passes(params, db, key)
  {
    SelectedMeaning(db, params, schema, key);
    var where := Where(params, db.links).value;
    if key.id in Select(db, cls, where) {
      var other :| other in db.rows && other.cls == cls && other.id == key.id
                   && Selected(where, Record(db.rows, other));
      assert other == key;
    }
  }

  lemma TextIsNumber(params: Params, rows: Rows, key: Key)
    requires PositiveIds(rows) && key in rows
    ensures AskedByText(params, key) ==> AskedByNumber(params, key)
  {
    ParseShowInt(LongKind, key.id);
  }

  /** With ids as they are printed, in particular without an id list, the two sources always select the same ids. */
  lemma SameSelection(db: Database, cls: string, keys: seq<Key>, params: Params, schema: Schema)
    requires Lists(keys, db.rows, cls) && AllConform(db.rows, cls, schema) && PositiveIds(db.rows)
    requires SafeQuery(params, schema)
    requires HasIds(params) ==> forall id | id in params.ids.value :: Canonical(id)
    ensures Where(params, db.links).Ok?
    ensures IdsOf(Filter(RecordExtractor(db.rows), params, keys)) == Select(db, cls, Where(params, db.links).value)
  {
    SameSelectionIff(db, cls, keys, params, schema);
  }
}
