/** Fields of a meta class and rows of its table, as the query layer and the object store see them. */
module Meta {
  import opened Wrappers
  import opened Values

  datatype FieldType =
    | Identifier
    | NumericInteger
    | NumericDecimal
    | Logical
    | Link
    | MultiLink
    | StringType
    | Date
    | BackReference
    | File
    | TextType
    | UniversalLink

  /** The Java class of a data source's identifiers. */
  datatype IdType = LongId | IntegerId | StringId | OtherId

  datatype LinkTarget = LinkTarget(code: string, idType: IdType)

  datatype Field = Field(
    code: string,
    kind: FieldType,
    column: Option<string>,
    linkTo: Option<LinkTarget>,
    nxmTable: string)

  const ID_COLUMN := "id"

  /** A database record: column to value. A column without an entry is SQL NULL. */
  type Row = map<string, Value>

  function Cell(row: Row, column: string): Value {
    if column in row then row[column] else Null
  }

  /** One row of an N x M link table. */
  datatype LinkRow = LinkRow(id: int, from: int, to: int)

  type LinkTables = map<string, seq<LinkRow>>

  function LinksOf(tables: LinkTables, name: string): seq<LinkRow> {
    if name in tables then tables[name] else []
  }

  /** `select to_id where from_id = id`, in table order. */
  function Forward(links: seq<LinkRow>, id: int): seq<int> {
    if links == [] then []
    else if links[0].from == id then [links[0].to] + Forward(links[1..], id)
    else Forward(links[1..], id)
  }

  /** `select from_id where to_id = id`, in table order. */
  function Reverse(links: seq<LinkRow>, id: int): seq<int> {
    if links == [] then []
    else if links[0].to == id then [links[0].from] + Reverse(links[1..], id)
    else Reverse(links[1..], id)
  }

  /** The reverse query is the converse of the forward one, multiplicities included. */
  lemma {:induction false} ReverseIsConverse(links: seq<LinkRow>, from: int, to: int)
    ensures multiset(Forward(links, from))[to] == multiset(Reverse(links, to))[from]
    ensures to in Forward(links, from) <==> from in Reverse(links, to)
    ensures to in Forward(links, from) <==> exists l :: l in links && l.from == from && l.to == to
  {
    if links != [] {
      ReverseIsConverse(links[1..], from, to);
      assert links == [links[0]] + links[1..];
    }
  }

  // ---------------------------------------------------------------- classes and records

  /** A meta class: its fields, and the codes of the fields the view settings show in titles. */
  datatype ClassInfo = ClassInfo(code: string, fields: seq<Field>, titles: set<string>)

  /** `fieldByCode.get(code)`: of two fields with one code the later one is found. */
  function FindField(fields: seq<Field>, code: string): (r: Option<Field>)
    ensures r.Some? ==> r.value in fields && r.value.code == code
    ensures r.Some? ==> exists i | 0 <= i < |fields| ::
                          fields[i] == r.value && forall j | i < j < |fields| :: fields[j].code != code
    ensures r.None? <==> forall f | f in fields :: f.code != code
  {
    if fields == [] then None
    else
      var last := fields[|fields| - 1];
      assert fields == fields[..|fields| - 1] + [last];
      if last.code == code then
        assert fields[|fields| - 1] == last;
        Some(last)
      else FindField(fields[..|fields| - 1], code)
  }

  function TitleFields(cls: ClassInfo): set<Field> {
    set f | f in cls.fields && f.code in cls.titles
  }

  /** An object's key: the code of its class and its identifier. */
  datatype Key = Key(cls: string, id: int)

  type Rows = map<Key, Row>

  /** The record the database returns for an object: its columns and its id. */
  function Record(rows: Rows, key: Key): Row
    requires key in rows
  {
    rows[key][ID_COLUMN := Num(LongKind, key.id)]
  }

  /** Identifiers come from sequences: positive 64-bit numbers. */
  predicate PositiveIds(rows: Rows) {
    forall key | key in rows :: 0 < key.id <= MaxOf(LongKind)
  }
}
