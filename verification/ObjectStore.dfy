/**
 * The object store: rows, N x M link tables and their sequences, and the search index that follows
 * the store's events.
 */
module ObjectStore {
  import opened Wrappers
  import opened Values
  import opened Meta

  // ---------------------------------------------------------------- state

  /** A submitted attribute: one value, or a collection of link ids. */
  datatype Input = Scalar(v: Value) | Ids(ids: seq<int>)

  /** An indexed document: field code to text, or to JSON null. */
  type Doc = map<string, Option<string>>

  type Classes = map<string, ClassInfo>

  type Sequences = map<string, int>

  datatype Store = Store(
    rows: Rows,
    idSequences: Sequences,
    links: LinkTables,
    linkSequences: Sequences,
    docs: map<DocKey, Doc>)

  /** Where a document stands in the index: under the text the id was sent as. */
  datatype DocKey = DocKey(cls: string, id: string)

  function DocKeyOf(key: Key): DocKey {
    DocKey(key.cls, ShowInt(key.id))
  }

  function DocKeys(keys: set<Key>): set<DocKey> {
    set key | key in keys :: DocKeyOf(key)
  }

  const EMPTY_STORE := Store(map[], map[], map[], map[], map[])

  /** A sequence starts at 1. */
  function NextVal(s: Sequences, name: string): int {
    if name in s then s[name] else 1
  }

  /**
   * Codes and columns are unique within a class and no field stands on the id column; a MULTILINK field
   * has no column and a link table of its own, shared with no other field of any class.
   */
  predicate WellFormed(classes: Classes) {
    && (forall c | c in classes :: WellFormedClass(classes[c]))
    && forall c, d | c in classes && d in classes && c != d ::
         LinkTablesIn(classes[c].fields) !! LinkTablesIn(classes[d].fields)
  }

  predicate WellFormedClass(cls: ClassInfo) {
    && DistinctCodes(cls.fields) && DistinctColumns(cls.fields) && OwnTables(cls.fields)
    && (forall f | f in cls.fields :: f.column != Some(ID_COLUMN))
    && (forall f | f in cls.fields && f.kind.MultiLink? :: f.column.None?)
  }

  predicate DistinctCodes(fields: seq<Field>) {
    forall f, g | f in fields && g in fields && f.code == g.code :: f == g
  }

  predicate DistinctColumns(fields: seq<Field>) {
    forall f, g | f in fields && g in fields && f.column.Some? && f.column == g.column :: f == g
  }

  predicate OwnTables(fields: seq<Field>) {
    forall f, g | f in fields && g in fields && f.kind.MultiLink? && g.kind.MultiLink? && f.nxmTable == g.nxmTable ::
      f == g
  }

  function LinkTablesIn(fields: seq<Field>): set<string> {
    set f | f in fields && f.kind.MultiLink? :: f.nxmTable
  }

  // ---------------------------------------------------------------- submitted values

  predicate Knows(cls: ClassInfo, code: string) {
    exists f | f in cls.fields :: f.code == code
  }

  predicate ScalarColumns(cls: ClassInfo, values: map<string, Input>) {
    forall f | f in cls.fields && f.column.Some? && f.code in values :: values[f.code].Scalar?
  }

  /** Every code names a field, and a field with a column gets a single value. */
  predicate Accepted(cls: ClassInfo, values: map<string, Input>) {
    (forall code | code in values :: Knows(cls, code)) && ScalarColumns(cls, values)
  }

  /**
   * Unknown codes share one null key, under which the code walked last leaves its value, and an insert
   * looks at the field of a non-null value only. With a null there it raises after the row has been
   * inserted, and the rollback keeps the drawn id drawn. `last` is the unknown code walked last.
   */
  predicate FailsAfterInsert(classes: Classes, code: string, values: map<string, Input>, last: string) {
    && code in classes && ScalarColumns(classes[code], values)
    && last in values && !Knows(classes[code], last) && values[last] == Scalar(Null)
  }

  predicate Assigns(f: Field, values: map<string, Input>, withNulls: bool) {
    && f.column.Some? && f.code in values
    && values[f.code].Scalar? && (withNulls || !values[f.code].v.Null?)
  }

  /** The column assignments of a write; an insert leaves null values out. */
  function Columns(fields: seq<Field>, values: map<string, Input>, withNulls: bool): Row {
    if fields == [] then map[]
    else
      var f, columns := fields[|fields| - 1], Columns(fields[..|fields| - 1], values, withNulls);
      if Assigns(f, values, withNulls) then columns[f.column.value := values[f.code].v] else columns
  }

  predicate Rewrites(f: Field, values: map<string, Input>) {
    f.kind.MultiLink? && f.column.None? && f.code in values && values[f.code].Ids?
  }

  /** The link tables a write rewrites, and the collections it puts there. */
  function Collections(fields: seq<Field>, values: map<string, Input>): map<string, seq<int>> {
    if fields == [] then map[]
    else
      var f, collections := fields[|fields| - 1], Collections(fields[..|fields| - 1], values);
      if Rewrites(f, values) then collections[f.nxmTable := values[f.code].ids] else collections
  }

  // ---------------------------------------------------------------- link tables

  function DropFrom(links: seq<LinkRow>, id: int): seq<LinkRow> {
    if links == [] then []
    else (if links[0].from == id then [] else [links[0]]) + DropFrom(links[1..], id)
  }

  function NewLinks(next: int, from: int, ids: seq<int>): seq<LinkRow> {
    seq(|ids|, i requires 0 <= i < |ids| => LinkRow(next + i, from, ids[i]))
  }

  /** One table: the object's links dropped, the collection appended with fresh link ids. */
  function TableAfter(links: LinkTables, s: Sequences, id: int, table: string, ids: seq<int>): seq<LinkRow> {
    DropFrom(LinksOf(links, table), id) + NewLinks(NextVal(s, table), id, ids)
  }

  function Relinked(links: LinkTables, s: Sequences, id: int, table: string, ids: seq<int>): LinkTables {
    links[table := TableAfter(links, s, id, table, ids)]
  }

  function Advanced(s: Sequences, name: string, n: nat): Sequences {
    s[name := NextVal(s, name) + n]
  }

  /** Every written table relinked. */
  function LinksAfter(links: LinkTables, s: Sequences, id: int, written: map<string, seq<int>>): LinkTables {
    map t | t in links.Keys + written.Keys ::
      if t in written then TableAfter(links, s, id, t, written[t]) else links[t]
  }

  function SequencesAfter(s: Sequences, written: map<string, seq<int>>): Sequences {
    map t | t in s.Keys + written.Keys :: NextVal(s, t) + if t in written then |written[t]| else 0
  }

  function LinksWithout(links: LinkTables, id: int, tables: set<string>): LinkTables {
    map t | t in links :: if t in tables then DropFrom(links[t], id) else links[t]
  }

  // ---------------------------------------------------------------- documents

  function TextOf(v: Value): Option<string> {
    if v.Null? then None else Some(Show(v))
  }

  /** `indexObject`: the submitted values themselves, collections left out. */
  function EventDoc(values: map<string, Input>): Doc {
    map code | code in values && values[code].Scalar? :: TextOf(values[code].v)
  }

  /** What `fullIndex` writes: every field with a column, from the row. */
  function FullDoc(fields: seq<Field>, row: Row): Doc {
    if fields == [] then map[]
    else
      var f, doc := fields[|fields| - 1], FullDoc(fields[..|fields| - 1], row);
      if f.column.Some? then doc[f.code := TextOf(Cell(row, f.column.value))] else doc
  }

  // ---------------------------------------------------------------- what the operations do

  /** What a write comes to: the column assignments, and the collection for each link table. */
  datatype Change = Change(columns: Row, links: map<string, seq<int>>)

  /** The checks in front of a write, and the change it asks for. */
  function Prepared(classes: Classes, code: string, values: map<string, Input>, withNulls: bool): Result<Change> {
    if values == map[] then Err(IllegalArgument)
    else if code !in classes || !Accepted(classes[code], values) then Err(NullPointer)
    else
      var fields := classes[code].fields;
      Ok(Change(Columns(fields, values, withNulls), Collections(fields, values)))
  }

  function DrawnId(st: Store, code: string): Store {
    st.(idSequences := st.idSequences[code := NextVal(st.idSequences, code) + 1])
  }

  /** The store after an insert under the next id: row, links and document. */
  function Created(st: Store, code: string, change: Change, values: map<string, Input>): Store {
    var key := Key(code, NextVal(st.idSequences, code));
    Store(st.rows[key := change.columns],
          st.idSequences[code := key.id + 1],
          LinksAfter(st.links, st.linkSequences, key.id, change.links),
          SequencesAfter(st.linkSequences, change.links),
          st.docs[DocKeyOf(key) := EventDoc(values)])
  }

  /**
   * The store after an update sent under the text `id`: the row and its links are those of the number
   * the text reads as, the document is the text's own. Links and document follow even when there is no
   * such row.
   */
  function Updated(st: Store, key: Key, id: string, change: Change, values: map<string, Input>): Store {
    Store(if key in st.rows then st.rows[key := st.rows[key] + change.columns] else st.rows,
          st.idSequences,
          LinksAfter(st.links, st.linkSequences, key.id, change.links),
          SequencesAfter(st.linkSequences, change.links),
          st.docs[DocKey(key.cls, id) := EventDoc(values)])
  }

  function Deleted(classes: Classes, st: Store, key: Key, id: string): Store
    requires key.cls in classes
  {
    Store(st.rows - {key},
          st.idSequences,
          LinksWithout(st.links, key.id, LinkTablesIn(classes[key.cls].fields)),
          st.linkSequences,
          st.docs - {DocKey(key.cls, id)})
  }

  function CreateSpec(classes: Classes, st: Store, code: string, values: map<string, Input>, last: string)
    : (Store, Result<string>)
  {
    match Prepared(classes, code, values, false)
    case Err(error) => (if FailsAfterInsert(classes, code, values, last) then DrawnId(st, code) else st, Err(error))
    case Ok(change) => (Created(st, code, change, values), Ok(ShowInt(NextVal(st.idSequences, code))))
  }

  /** The change an update asks for, and the number its id reads as. */
  function PreparedUpdate(classes: Classes, code: string, id: string, values: map<string, Input>): Result<(int,
                                                                                                           Change)> {
    var change :- Prepared(classes, code, values, true);
    var n :- ParseNum(LongKind, id);
    Ok((n, change))
  }

  function UpdateSpec(classes: Classes, st: Store, code: string, id: string, values: map<string, Input>)
    : (Store, Result<()>)
  {
    match PreparedUpdate(classes, code, id, values)
    case Err(error) => (st, Err(error))
    case Ok((n, change)) => (Updated(st, Key(code, n), id, change, values), Ok(()))
  }

  /** The class must be known and the id a number. */
  function PreparedDelete(classes: Classes, code: string, id: string): (r: Result<int>)
    ensures r.Ok? ==> code in classes
  {
    if code !in classes then Err(NullPointer) else ParseNum(LongKind, id)
  }

  function DeleteSpec(classes: Classes, st: Store, code: string, id: string): (Store, Result<()>) {
    match PreparedDelete(classes, code, id)
    case Err(error) => (st, Err(error))
    case Ok(n) => (Deleted(classes, st, Key(code, n), id), Ok(()))
  }

  /** The objects a full rebuild walks: those of a known class. */
  function Known(classes: Classes, rows: Rows): set<Key> {
    set key | key in rows && key.cls in classes
  }

  /** The documents after a full rebuild: one for every object of a known class, and the others as they were. */
  ghost predicate IsFullIndex(classes: Classes, rows: Rows, docs: map<DocKey, Doc>, docs': map<DocKey, Doc>) {
    && docs'.Keys == docs.Keys + DocKeys(Known(classes, rows))
    && (forall key | key in Known(classes, rows) :: docs'[DocKeyOf(key)] == FullDoc(classes[key.cls].fields, rows[key]))
    && forall d | d in docs && d !in DocKeys(Known(classes, rows)) :: docs'[d] == docs[d]
  }

  // ---------------------------------------------------------------- the index

  class Indexator {
    var docs: map<DocKey, Doc>

    constructor ()
      ensures docs == map[]
    {
      docs := map[];
    }

    method IndexObject(code: string, id: string, values: map<string, Input>)
      modifies this
      ensures docs == old(docs)[DocKey(code, id) := EventDoc(values)]
    {
      var source: Doc := map[];
      var rest := values.Keys;
      while rest != {}
        invariant rest <= values.Keys
        invariant source == map c | c in values.Keys - rest && values[c].Scalar? :: TextOf(values[c].v)
        decreases rest
      {
        var c :| c in rest;
        if values[c].Scalar? {
          source := source[c := TextOf(values[c].v)];
        }
        rest := rest - {c};
      }
      assert values.Keys - rest == values.Keys;
      docs := docs[DocKey(code, id) := source];
    }

    method DeleteIndex(code: string, id: string)
      modifies this
      ensures docs == old(docs) - {DocKey(code, id)}
    {
      docs := docs - {DocKey(code, id)};
    }

    static method BuildFullDoc(fields: seq<Field>, row: Row) returns (source: Doc)
      ensures source == FullDoc(fields, row)
    {
      source := map[];
      for i := 0 to |fields|
        invariant source == FullDoc(fields[..i], row)
      {
        assert fields[..i + 1][..i] == fields[..i];
        if fields[i].column.Some? {
          source := source[fields[i].code := TextOf(Cell(row, fields[i].column.value))];
        }
      }
      assert fields[..|fields|] == fields;
    }

    /** Writes a document for every object of a known class; documents of objects that are gone stay. */
    method FullIndex(classes: Classes, rows: Rows)
      modifies this
      ensures IsFullIndex(classes, rows, old(docs), docs)
    {
      var bulkRequest: map<DocKey, Doc> := map[];
      var rest := Known(classes, rows);
      ghost var known := rest;
      while rest != {}
        invariant rest <= known && docs == old(docs)
        invariant IsBulk(classes, rows, known - rest, bulkRequest)
        decreases rest
      {
        var key :| key in rest;
        var source := BuildFullDoc(classes[key.cls].fields, rows[key]);
        BulkNext(classes, rows, known - rest, bulkRequest, key);
        assert known - (rest - {key}) == (known - rest) + {key};
        bulkRequest := bulkRequest[DocKeyOf(key) := source];
        rest := rest - {key};
      }
      assert known - rest == known;
      BulkIsFullIndex(classes, rows, docs, bulkRequest);
      docs := docs + bulkRequest;
    }
  }

  /** The documents of a set of objects. */
  ghost predicate IsBulk(classes: Classes, rows: Rows, keys: set<Key>, bulk: map<DocKey, Doc>) {
    && (forall key | key in keys :: key in rows && key.cls in classes)
    && bulk.Keys == DocKeys(keys)
    && forall key | key in keys :: bulk[DocKeyOf(key)] == FullDoc(classes[key.cls].fields, rows[key])
  }

  lemma BulkNext(classes: Classes, rows: Rows, keys: set<Key>, bulk: map<DocKey, Doc>, key: Key)
    requires IsBulk(classes, rows, keys, bulk) && key in rows && key.cls in classes
    ensures IsBulk(classes, rows, keys + {key}, bulk[DocKeyOf(key) := FullDoc(classes[key.cls].fields, rows[key])])
  {
    forall other | other in keys && DocKeyOf(other) == DocKeyOf(key) ensures other == key {
      ShowIntInjective(other.id, key.id);
    }
    assert DocKeys(keys + {key}) == DocKeys(keys) + {DocKeyOf(key)};
  }

  lemma BulkIsFullIndex(classes: Classes, rows: Rows, docs: map<DocKey, Doc>, bulk: map<DocKey, Doc>)
    requires IsBulk(classes, rows, Known(classes, rows), bulk)
    ensures IsFullIndex(classes, rows, docs, docs + bulk)
  {}

  // ---------------------------------------------------------------- the data source

  lemma LinksAfterStep(links: LinkTables, s: Sequences, id: int, written: map<string, seq<int>>, table: string,
                       ids: seq<int>)
    requires table !in written
    ensures LinksAfter(links, s, id, written[table := ids]) ==
            Relinked(LinksAfter(links, s, id, written), SequencesAfter(s, written), id, table, ids)
  {
    var before, s' := LinksAfter(links, s, id, written), SequencesAfter(s, written);
    var l, r := LinksAfter(links, s, id, written[table := ids]), Relinked(before, s', id, table, ids);
    assert LinksOf(before, table) == LinksOf(links, table) && NextVal(s', table) == NextVal(s, table);
    assert l.Keys == r.Keys;
    forall t | t in l ensures l[t] == r[t] {
      if t != table && t in written { assert l[t] == TableAfter(links, s, id, t, written[t]) == before[t]; }
    }
  }

  lemma SequencesAfterStep(s: Sequences, written: map<string, seq<int>>, table: string, ids: seq<int>)
    requires table !in written
    ensures SequencesAfter(s, written[table := ids]) == Advanced(SequencesAfter(s, written), table, |ids|)
  {
    assert NextVal(SequencesAfter(s, written), table) == NextVal(s, table);
  }

  lemma NothingWritten(links: LinkTables, s: Sequences, id: int)
    ensures LinksAfter(links, s, id, map[]) == links
    ensures SequencesAfter(s, map[]) == s
  {}

  /**
   * Gathers the column assignments and the link collections of a write. Fields have columns and link
   * tables of their own, so the order of the walk is immaterial.
   */
  method Prepare(classes: Classes, code: string, values: map<string, Input>,
                 withNulls: bool) returns (r: Result<Change>)
    ensures r == Prepared(classes, code, values, withNulls)
  {
    if values == map[] {
      return Err(IllegalArgument);
    }
    if code !in classes || !Accepted(classes[code], values) {
      return Err(NullPointer);
    }
    var fields := classes[code].fields;
    var fieldValues: Row := map[];
    var collections: map<string, seq<int>> := map[];
    for i := 0 to |fields|
      invariant fieldValues == Columns(fields[..i], values, withNulls)
      invariant collections == Collections(fields[..i], values)
    {
      var field := fields[i];
      assert fields[..i + 1][..i] == fields[..i];
      if field.column.Some? {
        if field.code in values && (withNulls || values[field.code] != Scalar(Null)) {
          fieldValues := fieldValues[field.column.value := values[field.code].v];
        }
      } else if field.kind.MultiLink? && field.code in values && values[field.code].Ids? {
        collections := collections[field.nxmTable := values[field.code].ids];
      }
    }
    assert fields[..|fields|] == fields;
    r := Ok(Change(fieldValues, collections));
  }

  class ObjectDataSource {
    const classes: Classes
    const indexator: Indexator
    var rows: Rows
    var idSequences: Sequences
    var links: LinkTables
    var linkSequences: Sequences

    function State(): Store
      reads this, indexator
    {
      Store(rows, idSequences, links, linkSequences, indexator.docs)
    }

    constructor (classes: Classes, indexator: Indexator)
      requires indexator.docs == map[]
      ensures State() == EMPTY_STORE
      ensures this.classes == classes && this.indexator == indexator
    {
      this.classes, this.indexator := classes, indexator;
      rows, idSequences, links, linkSequences := map[], map[], map[], map[];
    }

    /** `last` is the code unknown to the class that the hash map of submitted values yields last, if any. */
    method CreateObject(code: string, values: map<string, Input>, last: string) returns (r: Result<string>)
      modifies this, indexator
      ensures State() == CreateSpec(classes, old(State()), code, values, last).0
      ensures r == CreateSpec(classes, old(State()), code, values, last).1
    {
      var change := Prepare(classes, code, values, false);
      if change.Err? {
        if FailsAfterInsert(classes, code, values, last) {
          idSequences := idSequences[code := NextVal(idSequences, code) + 1];
        }
        return Err(change.error);
      }
      var id := Insert(code, change.value, values);
      r := Ok(ShowInt(id));
    }

    method UpdateObject(code: string, id: string, values: map<string, Input>) returns (r: Result<()>)
      modifies this, indexator
      ensures State() == UpdateSpec(classes, old(State()), code, id, values).0
      ensures r == UpdateSpec(classes, old(State()), code, id, values).1
    {
      var change := Prepare(classes, code, values, true);
      if change.Err? {
        return Err(change.error);
      }
      var n := ParseNum(LongKind, id);
      if n.Err? {
        return Err(n.error);
      }
      Update(Key(code, n.value), id, change.value, values);
      r := Ok(());
    }

    method Insert(code: string, change: Change, values: map<string, Input>) returns (id: int)
      modifies this, indexator
      ensures State() == Created(old(State()), code, change, values)
      ensures id == NextVal(old(idSequences), code)
    {
      id := NextVal(idSequences, code);
      idSequences := idSequences[code := id + 1];
      rows := rows[Key(code, id) := change.columns];
      UpdateMultilinks(id, change.links);
      indexator.IndexObject(code, ShowInt(id), values);
    }

    method Update(key: Key, id: string, change: Change, values: map<string, Input>)
      modifies this, indexator
      ensures State() == Updated(old(State()), key, id, change, values)
    {
      UpdateMultilinks(key.id, change.links);
      if key in rows {
        rows := rows[key := rows[key] + change.columns];
      }
      indexator.IndexObject(key.cls, id, values);
    }

    method DeleteObject(code: string, id: string) returns (r: Result<()>)
      modifies this, indexator
      ensures State() == DeleteSpec(classes, old(State()), code, id).0
      ensures r == DeleteSpec(classes, old(State()), code, id).1
    {
      if code !in classes {
        return Err(NullPointer);
      }
      var n := ParseNum(LongKind, id);
      if n.Err? {
        return Err(n.error);
      }
      Delete(Key(code, n.value), id);
      r := Ok(());
    }

    method Delete(key: Key, id: string)
      requires key.cls in classes
      modifies this, indexator
      ensures State() == Deleted(classes, old(State()), key, id)
    {
      var fields := classes[key.cls].fields;
      for i := 0 to |fields|
        invariant links == LinksWithout(old(links), key.id, LinkTablesIn(fields[..i]))
        invariant rows == old(rows) && idSequences == old(idSequences) && linkSequences == old(linkSequences)
        invariant indexator.docs == old(indexator.docs)
      {
        LinksWithoutStep(old(links), key.id, fields[..i], fields[i]);
        assert fields[..i + 1] == fields[..i] + [fields[i]];
        if fields[i].kind.MultiLink? && fields[i].nxmTable in links {
          links := links[fields[i].nxmTable := DropFrom(links[fields[i].nxmTable], key.id)];
        }
      }
      assert fields[..|fields|] == fields;
      rows := rows - {key};
      indexator.DeleteIndex(key.cls, id);
    }

    /** `updateMultilink` for every submitted collection, in any order. */
    method UpdateMultilinks(id: int, collections: map<string, seq<int>>)
      modifies this`links, this`linkSequences
      ensures links == LinksAfter(old(links), old(linkSequences), id, collections)
      ensures linkSequences == SequencesAfter(old(linkSequences), collections)
    {
      var rest := collections.Keys;
      ghost var links0, sequences0 := links, linkSequences;
      ghost var written: map<string, seq<int>> := map[];
      NothingWritten(links0, sequences0, id);
      while rest != {}
        invariant rest <= collections.Keys
        invariant written.Keys == collections.Keys - rest
        invariant forall t | t in written :: written[t] == collections[t]
        invariant links == LinksAfter(links0, sequences0, id, written)
        invariant linkSequences == SequencesAfter(sequences0, written)
        decreases rest
      {
        var table :| table in rest;
        LinksAfterStep(links0, sequences0, id, written, table, collections[table]);
        SequencesAfterStep(sequences0, written, table, collections[table]);
        UpdateMultilink(table, id, collections[table]);
        written := written[table := collections[table]];
        rest := rest - {table};
      }
      assert written == collections;
    }

    method UpdateMultilink(table: string, id: int, value: seq<int>)
      modifies this`links, this`linkSequences
      ensures links == Relinked(old(links), old(linkSequences), id, table, value)
      ensures linkSequences == Advanced(old(linkSequences), table, |value|)
    {
      var next := NextVal(linkSequences, table);
      var rows' := DropFrom(LinksOf(links, table), id);
      ghost var kept := rows';
      for i := 0 to |value|
        invariant rows' == kept + NewLinks(next, id, value)[..i]
      {
        rows' := rows' + [LinkRow(next + i, id, value[i])];
      }
      assert NewLinks(next, id, value)[..|value|] == NewLinks(next, id, value);
      links := links[table := rows'];
      linkSequences := linkSequences[table := next + |value|];
    }
  }

  lemma {:induction false} DropTwice(links: seq<LinkRow>, id: int)
    ensures DropFrom(DropFrom(links, id), id) == DropFrom(links, id)
  {
    if links != [] {
      DropTwice(links[1..], id);
      var rest := DropFrom(links[1..], id);
      if links[0].from != id {
        assert DropFrom(links, id) == [links[0]] + rest;
        assert ([links[0]] + rest)[1..] == rest;
      } else {
        assert DropFrom(links, id) == rest;
      }
    }
  }

  lemma LinksWithoutStep(links: LinkTables, id: int, fields: seq<Field>, f: Field)
    ensures LinksWithout(links, id, LinkTablesIn(fields + [f])) ==
            var before := LinksWithout(links, id, LinkTablesIn(fields));
            if f.kind.MultiLink? && f.nxmTable in before
            then before[f.nxmTable := DropFrom(before[f.nxmTable], id)] else before
  {
    assert f.kind.MultiLink? ==> LinkTablesIn(fields + [f]) == LinkTablesIn(fields) + {f.nxmTable};
    assert !f.kind.MultiLink? ==> LinkTablesIn(fields + [f]) == LinkTablesIn(fields);
    DropTwice(LinksOf(links, f.nxmTable), id);
  }
}
