/**
 * The table query of the REST service: user filters become one condition, and a filter on a LINK
 * field becomes a semi-join through the title fields of the linked class.
 */
module QueryService {
  import opened Wrappers
  import opened Values
  import opened Meta
  import opened Conditions
  import opened Sql
  import opened ConvertToJooq
  import opened QueryParams
  import Like

  /**
   * The database behind the data source of the queried class. The linked objects of a LINK filter are
   * asked of the same data source, so this is where they are looked for.
   */
  datatype Database = Database(rows: Rows, links: LinkTables)

  // ---------------------------------------------------------------- the where clause of getObjects

  function IdSet(ids: set<string>): Result<set<Value>> {
    if exists id | id in ids :: ParseNum(LongKind, id).Err? then Err(NumberFormat)
    else Ok(set id | id in ids :: Num(LongKind, ParseNum(LongKind, id).value))
  }

  /** The condition first, then the id filter in front of it; None when nothing restricts the query. */
  function Where(params: Params, links: LinkTables): Result<Option<Sql>> {
    var where: Option<Sql> :-
      match params.condition
      case None => Ok(None)
      case Some(c) => (var sql :- Convert(c, links); Ok(Some(sql)));
    if params.ids.Some? && params.ids.value != {} then
      var ids :- IdSet(params.ids.value);
      var byId := SqlIn(ID_COLUMN, ids);
      Ok(Some(if where.None? then byId else SqlAnd(byId, where.value)))
    else Ok(where)
  }

  predicate Selected(where: Option<Sql>, record: Row) {
    where.Some? ==> Keeps(where.value, record)
  }

  function Select(db: Database, cls: string, where: Option<Sql>): set<int> {
    set key | key in db.rows && key.cls == cls && Selected(where, Record(db.rows, key)) :: key.id
  }

  // ---------------------------------------------------------------- disjunctions and conjunctions

  function OrLeaves(c: Condition): set<Condition> {
    if c.Or? then OrLeaves(c.first) + OrLeaves(c.second) else {c}
  }

  function AndLeaves(c: Condition): set<Condition> {
    if c.And? then AndLeaves(c.first) + AndLeaves(c.second) else {c}
  }

  /** A disjunction compiles when all its parts do, and keeps what one of them keeps, in any order. */
  lemma {:induction false} OrMeaning(c: Condition, links: LinkTables, record: Row)
    ensures Compiles(c, links) <==> forall leaf | leaf in OrLeaves(c) :: Compiles(leaf, links)
    ensures Compiles(c, links) ==>
              (KeepsRecord(c, links, record) <==> exists leaf | leaf in OrLeaves(c) :: KeepsRecord(leaf, links, record))
  {
    if c.Or? {
      OrMeaning(c.first, links, record);
      OrMeaning(c.second, links, record);
    }
  }

  lemma {:induction false} AndMeaning(c: Condition, links: LinkTables, record: Row)
    ensures Compiles(c, links) <==> forall leaf | leaf in AndLeaves(c) :: Compiles(leaf, links)
    ensures Compiles(c, links) ==>
              (KeepsRecord(c, links, record) <==>
               forall leaf | leaf in AndLeaves(c) :: KeepsRecord(leaf, links, record))
  {
    if c.And? {
      AndMeaning(c.first, links, record);
      AndMeaning(c.second, links, record);
    }
  }

  function LikeConditions(fields: set<Field>, v: Value): set<Condition> {
    set f | f in fields :: Compare(f, One(v), LikeOp)
  }

  /** `map(...).reduce(Condition::or).get()` over a set, in whatever order the set is walked. */
  method AnyFieldLike(fields: set<Field>, v: Value) returns (r: Result<Condition>)
    ensures r == Err(NoSuchElement) <==> fields == {}
    ensures fields != {} ==> r.Ok? && OrLeaves(r.value) == LikeConditions(fields, v)
  {
    r := Err(NoSuchElement);
    var rest := fields;
    while rest != {}
      invariant rest <= fields
      invariant rest == fields ==> r == Err(NoSuchElement)
      invariant rest != fields ==> r.Ok? && OrLeaves(r.value) == LikeConditions(fields - rest, v)
      decreases rest
    {
      var f :| f in rest;
      var like := Compare(f, One(v), LikeOp);
      assert LikeConditions(fields - (rest - {f}), v) == LikeConditions(fields - rest, v) + {like};
      r := Ok(if r.Ok? then Or(r.value, like) else like);
      rest := rest - {f};
    }
    assert fields - rest == fields;
  }

  // ---------------------------------------------------------------- one filter entry

  /** A field a LIKE filter can address directly: it has a column and is no link. */
  predicate IsPlain(f: Field) {
    !f.kind.Link? && !f.kind.MultiLink? && f.column.Some?
  }

  predicate LikeCell(record: Row, f: Field, v: Value) {
    && f.column.Some?
    && var cell := Cell(record, f.column.value);
       !cell.Null? && Like.ILike(Show(cell), "%" + Show(v) + "%")
  }

  predicate AnyLikeCell(record: Row, fields: set<Field>, v: Value) {
    exists f | f in fields :: LikeCell(record, f, v)
  }

  /** One of the title comparisons keeps the record. */
  predicate TitleKeeps(links: LinkTables, linked: ClassInfo, v: Value, record: Row) {
    exists f | f in TitleFields(linked) :: KeepsRecord(Compare(f, One(v), LikeOp), links, record)
  }

  /** The ids of the linked objects that one of the title comparisons keeps. */
  function MatchingLinked(db: Database, linked: ClassInfo, v: Value): set<int> {
    set key | key in db.rows && key.cls == linked.code
              && TitleKeeps(db.links, linked, v, Record(db.rows, key)) :: key.id
  }

  /** For title fields with a column and no link, that is a match of the title's text. */
  lemma TitleKeepsText(links: LinkTables, linked: ClassInfo, v: Value, record: Row)
    requires forall f | f in TitleFields(linked) :: IsPlain(f)
    ensures TitleKeeps(links, linked, v, record) <==> AnyLikeCell(record, TitleFields(linked), v)
    ensures TitlesCompile(links, linked, v)
  {
    forall f | f in TitleFields(linked)
      ensures KeepsRecord(Compare(f, One(v), LikeOp), links, record) <==> LikeCell(record, f, v)
      ensures Compiles(Compare(f, One(v), LikeOp), links)
    {}
  }

  type Classes = map<string, ClassInfo>

  /** A LINK field that links at all links to a class of the registry. */
  predicate LinksKnown(classes: Classes, cls: ClassInfo) {
    forall f | f in cls.fields && f.kind.Link? && f.linkTo.Some? ::
      f.linkTo.value.code in classes && classes[f.linkTo.value.code].code == f.linkTo.value.code
  }

  predicate TitlesCompile(links: LinkTables, linked: ClassInfo, v: Value) {
    forall f | f in TitleFields(linked) :: Compiles(Compare(f, One(v), LikeOp), links)
  }

  /** The filter's field exists, and a LINK field has a linked class with title fields that can be compared. */
  predicate EntryBuilds(links: LinkTables, classes: Classes, cls: ClassInfo, key: string, v: Value)
    requires LinksKnown(classes, cls)
  {
    key == "id" ||
    var f := FindField(cls.fields, key);
    && f.Some?
    && (f.value.kind.Link? ==>
          && f.value.linkTo.Some?
          && TitleFields(classes[f.value.linkTo.value.code]) != {}
          && TitlesCompile(links, classes[f.value.linkTo.value.code], v))
  }

  function EntryCondition(db: Database, classes: Classes, cls: ClassInfo, key: string, v: Value): Condition
    requires LinksKnown(classes, cls) && EntryBuilds(db.links, classes, cls, key, v) && key != "id"
  {
    var f := FindField(cls.fields, key).value;
    if f.kind.Link? then
      var linked := classes[f.linkTo.value.code];
      Compare(f, Many(set id | id in MatchingLinked(db, linked, v) :: Text(ShowInt(id))), In)
    else Compare(f, One(v), LikeOp)
  }

  function EntryConditions(db: Database, classes: Classes, cls: ClassInfo, filters: map<string, Value>,
                           keys: set<string>)
    : set<Condition>
    requires LinksKnown(classes, cls)
    requires keys <= filters.Keys
    requires forall key | key in keys :: EntryBuilds(db.links, classes, cls, key, filters[key])
  {
    set key | key in keys && key != "id" :: EntryCondition(db, classes, cls, key, filters[key])
  }

  /** What the filter loop leaves in the builder: a conjunction of one condition per filter. */
  ghost predicate IsQuery(db: Database, classes: Classes, cls: ClassInfo, filters: map<string, Value>,
                          condition: Option<Condition>, ids: Option<set<string>>, keys: set<string>)
    requires LinksKnown(classes, cls)
    requires keys <= filters.Keys
  {
    && (forall key | key in keys :: EntryBuilds(db.links, classes, cls, key, filters[key]))
    && ids == (if "id" in keys then Some({Show(filters["id"])}) else None)
    && var parts := EntryConditions(db, classes, cls, filters, keys);
    && (condition.None? <==> parts == {})
    && (condition.Some? ==> AndLeaves(condition.value) == parts)
  }

  // ---------------------------------------------------------------- getObjectList

  /** The linked ids of a LINK filter, fetched through the OR of the linked class's title fields. */
  method LinkedIds(db: Database, linked: ClassInfo, v: Value) returns (r: Result<set<int>>)
    ensures r.Ok? <==> TitleFields(linked) != {} && TitlesCompile(db.links, linked, v)
    ensures r.Ok? ==> r.value == MatchingLinked(db, linked, v)
  {
    var title := AnyFieldLike(TitleFields(linked), v);
    if title.Err? {
      return Err(title.error);
    }
    var builder := new ParamsBuilder(linked.code);
    builder.SetCondition(Some(title.value));
    AnyTitleMeaning(db.links, title.value, linked, v, map[]);
    var where := Where(builder.Build(), db.links);
    if where.Err? {
      return Err(where.error);
    }
    forall key | key in db.rows
      ensures Selected(where.value, Record(db.rows, key)) <==> TitleKeeps(db.links, linked, v, Record(db.rows, key))
    {
      AnyTitleMeaning(db.links, title.value, linked, v, Record(db.rows, key));
    }
    r := Ok(Select(db, linked.code, where.value));
  }

  /** The OR of the title comparisons compiles when all of them do, and keeps what one of them keeps. */
  lemma AnyTitleMeaning(links: LinkTables, c: Condition, linked: ClassInfo, v: Value, record: Row)
    requires OrLeaves(c) == LikeConditions(TitleFields(linked), v)
    ensures Compiles(c, links) <==> TitlesCompile(links, linked, v)
    ensures Compiles(c, links) ==> (KeepsRecord(c, links, record) <==> TitleKeeps(links, linked, v, record))
  {
    OrMeaning(c, links, record);
    forall f | f in TitleFields(linked) ensures Compare(f, One(v), LikeOp) in OrLeaves(c) {}
  }

  /** The quick search: for fields with a column and no link, the OR keeps a record when one of them matches. */
  lemma AnyFieldMeaning(links: LinkTables, c: Condition, fields: set<Field>, v: Value, record: Row)
    requires forall f | f in fields :: IsPlain(f)
    requires OrLeaves(c) == LikeConditions(fields, v)
    ensures Compiles(c, links)
    ensures KeepsRecord(c, links, record) <==> AnyLikeCell(record, fields, v)
  {
    OrMeaning(c, links, record);
    forall f | f in fields
      ensures Compare(f, One(v), LikeOp) in OrLeaves(c)
      ensures KeepsRecord(Compare(f, One(v), LikeOp), links, record) <==> LikeCell(record, f, v)
    {}
  }

  /** The condition of one filter other than the id filter. */
  method FilterCondition(db: Database, classes: Classes, cls: ClassInfo, key: string,
                         v: Value) returns (r: Result<Condition>)
    requires LinksKnown(classes, cls) && key != "id"
    ensures r.Ok? <==> EntryBuilds(db.links, classes, cls, key, v)
    ensures r.Ok? ==> r.value == EntryCondition(db, classes, cls, key, v)
  {
    var field := FindField(cls.fields, key);
    if field.None? {
      return Err(NullPointer);
    }
    if field.value.kind.Link? {
      if field.value.linkTo.None? {
        return Err(NullPointer);
      }
      var linkedIds := LinkedIds(db, classes[field.value.linkTo.value.code], v);
      if linkedIds.Err? {
        return Err(linkedIds.error);
      }
      r := Ok(Compare(field.value, Many(set id | id in linkedIds.value :: Text(ShowInt(id))), In));
    } else {
      r := Ok(Compare(field.value, One(v), LikeOp));
    }
  }

  lemma EntryConditionsGrow(db: Database, classes: Classes, cls: ClassInfo, filters: map<string, Value>,
                            keys: set<string>, key: string)
    requires LinksKnown(classes, cls)
    requires keys + {key} <= filters.Keys
    requires forall k | k in keys + {key} :: EntryBuilds(db.links, classes, cls, k, filters[k])
    ensures EntryConditions(db, classes, cls, filters, keys + {key}) ==
            EntryConditions(db, classes, cls, filters, keys)
            + (if key == "id" then {} else {EntryCondition(db, classes, cls, key, filters[key])})
  {}

  lemma IdsGrow(db: Database, classes: Classes, cls: ClassInfo, filters: map<string, Value>,
                condition: Option<Condition>, ids: Option<set<string>>, done: set<string>)
    requires LinksKnown(classes, cls) && "id" in filters && "id" !in done && done <= filters.Keys
    requires IsQuery(db, classes, cls, filters, condition, ids, done)
    ensures IsQuery(db, classes, cls, filters, condition, Some({Show(filters["id"])}), done + {"id"})
  {
    EntryConditionsGrow(db, classes, cls, filters, done, "id");
  }

  lemma Conjoin(condition: Option<Condition>, parts: set<Condition>, part: Condition)
    requires condition.None? <==> parts == {}
    requires condition.Some? ==> AndLeaves(condition.value) == parts
    requires !part.And?
    ensures AndLeaves(if condition.None? then part else And(condition.value, part)) == parts + {part}
  {}

  lemma ConditionGrows(db: Database, classes: Classes, cls: ClassInfo, filters: map<string, Value>,
                       condition: Option<Condition>, ids: Option<set<string>>, done: set<string>, key: string)
    requires LinksKnown(classes, cls) && key in filters && key !in done && done <= filters.Keys && key != "id"
    requires IsQuery(db, classes, cls, filters, condition, ids, done)
    requires EntryBuilds(db.links, classes, cls, key, filters[key])
    ensures var part := EntryCondition(db, classes, cls, key, filters[key]);
            IsQuery(db, classes, cls, filters, Some(if condition.None? then part else And(condition.value, part)), ids,
                    done + {key})
  {
    EntryConditionsGrow(db, classes, cls, filters, done, key);
    Conjoin(condition, EntryConditions(db, classes, cls, filters, done),
            EntryCondition(db, classes, cls, key, filters[key]));
  }

  /** One filter: the id filter goes to the ids, any other joins the conjunction. */
  method ApplyFilter(db: Database, classes: Classes, cls: ClassInfo, filters: map<string, Value>,
                     ghost done: set<string>,
                     key: string, condition: Option<Condition>, paramsBuilder: ParamsBuilder)
    returns (r: Result<Option<Condition>>)
    requires LinksKnown(classes, cls) && key in filters && key !in done && done <= filters.Keys
    requires IsQuery(db, classes, cls, filters, condition, paramsBuilder.ids, done)
    modifies paramsBuilder`ids, paramsBuilder`condition
    ensures r.Ok? <==> EntryBuilds(db.links, classes, cls, key, filters[key])
    ensures r.Ok? ==> paramsBuilder.condition == r.value
    ensures r.Ok? ==> IsQuery(db, classes, cls, filters, r.value, paramsBuilder.ids, done + {key})
  {
    var condition' := condition;
    ghost var ids := paramsBuilder.ids;
    if key == "id" {
      IdsGrow(db, classes, cls, filters, condition, ids, done);
      paramsBuilder.AddIds({Show(filters[key])});
      assert {} + {Show(filters[key])} == {Show(filters[key])};
    } else {
      var condition1 := FilterCondition(db, classes, cls, key, filters[key]);
      if condition1.Err? {
        return Err(condition1.error);
      }
      ConditionGrows(db, classes, cls, filters, condition, ids, done, key);
      condition' := Some(if condition.None? then condition1.value else And(condition.value, condition1.value));
    }
    paramsBuilder.SetCondition(condition');
    r := Ok(condition');
  }

  /** All filters, walked in whatever order the hash map yields; the query is the same conjunction. */
  method ApplyFilters(db: Database, classes: Classes, cls: ClassInfo, filters: map<string, Value>,
                      paramsBuilder: ParamsBuilder)
    returns (r: Result<()>)
    requires LinksKnown(classes, cls) && paramsBuilder.condition.None? && paramsBuilder.ids.None?
    modifies paramsBuilder`ids, paramsBuilder`condition
    ensures r.Ok? <==> forall key | key in filters :: EntryBuilds(db.links, classes, cls, key, filters[key])
    ensures r.Ok? ==> IsQuery(db, classes, cls, filters, paramsBuilder.condition, paramsBuilder.ids, filters.Keys)
  {
    var condition: Option<Condition> := None;
    var rest := filters.Keys;
    while rest != {}
      invariant rest <= filters.Keys && paramsBuilder.condition == condition
      invariant IsQuery(db, classes, cls, filters, condition, paramsBuilder.ids, filters.Keys - rest)
      decreases rest
    {
      var key :| key in rest;
      var applied := ApplyFilter(db, classes, cls, filters, filters.Keys - rest, key, condition, paramsBuilder);
      if applied.Err? {
        return Err(applied.error);
      }
      condition := applied.value;
      assert filters.Keys - (rest - {key}) == (filters.Keys - rest) + {key};
      rest := rest - {key};
    }
    assert filters.Keys - rest == filters.Keys;
    r := Ok(());
  }

  /** The parameters of the table query, or the failure of a filter. */
  method GetObjectList(db: Database, classes: Classes, metaClassCode: string, filters: map<string, Value>,
                       limit: int, offset: int, sortColumn: Option<string>, sortDirection: string)
    returns (r: Result<Params>)
    requires forall code | code in classes :: LinksKnown(classes, classes[code])
    ensures r.Ok? <==> metaClassCode in classes
                       && forall key | key in filters ::
                            EntryBuilds(db.links, classes, classes[metaClassCode], key, filters[key])
    ensures r.Ok? ==>
              && IsQuery(db, classes, classes[metaClassCode], filters, r.value.condition, r.value.ids, filters.Keys)
              && r.value.metaClass == metaClassCode && r.value.limit == limit && r.value.offset == offset
    ensures r.Ok? ==>
              var fields, order := classes[metaClassCode].fields, r.value.orderFields;
              && (order.None? <==> sortColumn.None? || forall f | f in fields :: f.code != sortColumn.value)
              && (order.Some? ==>
                    && |order.value| == 1 && (order.value[0].order.Desc? <==> sortDirection == "DESC")
                    && exists i | 0 <= i < |fields| ::
                         && order.value[0].field == fields[i] && fields[i].code == sortColumn.value
                         && forall j | i < j < |fields| :: fields[j].code != sortColumn.value)
  {
    if metaClassCode !in classes {
      return Err(NullPointer);
    }
    var cls := classes[metaClassCode];
    var paramsBuilder := new ParamsBuilder(metaClassCode);
    var applied := ApplyFilters(db, classes, cls, filters, paramsBuilder);
    if applied.Err? {
      return Err(applied.error);
    }
    paramsBuilder.SetLimit(limit);
    paramsBuilder.SetOffset(offset);
    if sortColumn.Some? {
      var orderField := FindField(cls.fields, sortColumn.value);
      if orderField.Some? {
        paramsBuilder.AddOrder(orderField.value, if sortDirection == "DESC" then Desc else Asc);
      }
    }
    r := Ok(paramsBuilder.Build());
  }

  // ---------------------------------------------------------------- what the query means

  /** The filter's value is a number where the column it meets is compared as an id. */
  predicate EntryRuns(cls: ClassInfo, key: string, v: Value) {
    if key == "id" then ParseNum(LongKind, Show(v)).Ok?
    else
      var f := FindField(cls.fields, key);
      f.Some? && if f.value.kind.MultiLink? then !v.Null? && ParseNum(LongKind, Show(v)).Ok? else f.value.column.Some?
  }

  /** The identifiers of linked classes are 64-bit numbers: they are rows of the same database. */
  predicate LinksStored(classes: Classes, cls: ClassInfo) {
    && LinksKnown(classes, cls)
    && forall f | f in cls.fields && f.kind.Link? && f.linkTo.Some? :: f.linkTo.value.idType.LongId?
  }

  /** Some linked object has the id in the cell, and one of the title comparisons keeps it. */
  predicate LinkMatches(db: Database, linked: ClassInfo, cell: Value, v: Value) {
    exists other | other in db.rows && other.cls == linked.code ::
      && cell.Num? && cell.n == other.id
      && TitleKeeps(db.links, linked, v, Record(db.rows, other))
  }

  /** With plain title fields: some linked object has the id in the cell, and one of its titles matches. */
  lemma LinkMatchesText(db: Database, linked: ClassInfo, cell: Value, v: Value)
    requires forall f | f in linked.fields && f.code in linked.titles :: IsPlain(f)
    ensures LinkMatches(db, linked, cell, v) <==>
            exists other, f | other in db.rows && other.cls == linked.code
                              && f in linked.fields && f.code in linked.titles ::
              && cell.Num? && cell.n == other.id
              && LikeCell(Record(db.rows, other), f, v)
  {
    forall other | other in db.rows
      ensures TitleKeeps(db.links, linked, v, Record(db.rows, other)) <==>
              exists f | f in linked.fields && f.code in linked.titles :: LikeCell(Record(db.rows, other), f, v)
    {
      TitleKeepsText(db.links, linked, v, Record(db.rows, other));
    }
  }

  /** The meaning of one filter on one object of the class. */
  predicate EntryMatches(db: Database, classes: Classes, cls: ClassInfo, key: string, v: Value, owner: Key)
    requires owner in db.rows && LinksKnown(classes, cls)
    requires EntryBuilds(db.links, classes, cls, key, v) && EntryRuns(cls, key, v)
  {
    var record := Record(db.rows, owner);
    if key == "id" then owner.id == ParseNum(LongKind, Show(v)).value
    else
      var f := FindField(cls.fields, key).value;
      if f.kind.MultiLink? then
        ParseNum(LongKind, Show(v)).value in Forward(LinksOf(db.links, f.nxmTable), owner.id)
      else if f.kind.Link? then
        LinkMatches(db, classes[f.linkTo.value.code], Cell(record, f.column.value), v)
      else LikeCell(record, f, v)
  }

  /** The ids of the linked rows, printed and read back on their way into the IN list. */
  lemma PrintedIds(f: Field, ids: set<int>)
    requires LinksByNumber(f, LongKind) && forall id | id in ids :: InRange(LongKind, id)
    ensures NormaliseLink(f, Many(set id | id in ids :: Text(ShowInt(id)))) ==
            Ok(Many(set id | id in ids :: Num(LongKind, id)))
  {
    var texts := set id | id in ids :: Text(ShowInt(id));
    forall id | id in ids ensures Text(ShowInt(id)) in texts && ParseNum(LongKind, ShowInt(id)) == Ok(id) {
      ParseShowInt(LongKind, id);
    }
    var ns := NumbersOf(f, LongKind, texts);
    forall n ensures n in ns <==> n in ids {
      if n in ids {
        assert ParseNum(LongKind, Show(Text(ShowInt(n)))) == Ok(n);
      }
    }
    assert ns == ids;
  }

  lemma LinkEntryMeaning(db: Database, f: Field, linked: ClassInfo, v: Value, record: Row)
    requires PositiveIds(db.rows)
    requires f.kind.Link? && f.linkTo.Some? && f.linkTo.value.idType.LongId?
    ensures var c := Compare(f, Many(set id | id in MatchingLinked(db, linked, v) :: Text(ShowInt(id))), In);
            && (Compiles(c, db.links) <==> f.column.Some?)
            && (f.column.Some? ==>
                  (KeepsRecord(c, db.links, record) <==> LinkMatches(db, linked, Cell(record, f.column.value), v)))
  {
    var ids := MatchingLinked(db, linked, v);
    if f.column.Some? {
      PrintedIds(f, ids);
      InNumbers(f.column.value, LongKind, ids, record);
    }
  }

  lemma EntryMeaning(db: Database, classes: Classes, cls: ClassInfo, key: string, v: Value, owner: Key)
    requires PositiveIds(db.rows) && owner in db.rows && LinksStored(classes, cls)
    requires EntryBuilds(db.links, classes, cls, key, v) && key != "id"
    ensures var c := EntryCondition(db, classes, cls, key, v);
            && (Compiles(c, db.links) <==> EntryRuns(cls, key, v))
            && (EntryRuns(cls, key, v) ==>
                  (KeepsRecord(c, db.links, Record(db.rows, owner)) <==> EntryMatches(db, classes, cls, key, v, owner)))
  {
    var f := FindField(cls.fields, key).value;
    var record := Record(db.rows, owner);
    if f.kind.Link? {
      LinkEntryMeaning(db, f, classes[f.linkTo.value.code], v, record);
    } else if f.kind.MultiLink? && EntryRuns(cls, key, v) {
      MultilinkExactIff(f, v, db.links, owner.id, record);
    }
  }

  lemma IdMeaning(text: string, record: Row, id: int)
    requires Cell(record, ID_COLUMN) == Num(LongKind, id)
    ensures IdSet({text}).Ok? <==> ParseNum(LongKind, text).Ok?
    ensures IdSet({text}).Ok? ==>
              (Keeps(SqlIn(ID_COLUMN, IdSet({text}).value), record) <==> id == ParseNum(LongKind, text).value)
  {
    if ParseNum(LongKind, text).Ok? {
      assert Num(LongKind, ParseNum(LongKind, text).value) in IdSet({text}).value;
    }
  }

  /** All filters other than the id filter, through the conjunction the loop has built. */
  lemma ConditionMeaning(db: Database, classes: Classes, cls: ClassInfo, filters: map<string, Value>, c: Condition,
                         owner: Key)
    requires PositiveIds(db.rows) && owner in db.rows && LinksStored(classes, cls)
    requires forall key | key in filters :: EntryBuilds(db.links, classes, cls, key, filters[key])
    requires AndLeaves(c) == EntryConditions(db, classes, cls, filters, filters.Keys)
    ensures Compiles(c, db.links) <==> forall key | key in filters && key != "id" :: EntryRuns(cls, key, filters[key])
    ensures Compiles(c, db.links) ==>
              (KeepsRecord(c, db.links, Record(db.rows, owner)) <==>
               forall key | key in filters && key != "id" :: EntryMatches(db, classes, cls, key, filters[key], owner))
  {
    AndMeaning(c, db.links, Record(db.rows, owner));
    forall key | key in filters && key != "id"
      ensures var part := EntryCondition(db, classes, cls, key, filters[key]);
              && part in AndLeaves(c)
              && (Compiles(part, db.links) <==> EntryRuns(cls, key, filters[key]))
              && (Compiles(part, db.links) ==>
                    (KeepsRecord(part, db.links, Record(db.rows, owner)) <==>
                     EntryMatches(db, classes, cls, key, filters[key], owner)))
    {
      EntryMeaning(db, classes, cls, key, filters[key], owner);
    }
  }

  /** The assembled WHERE clause: both parts must compile, and a record must pass both. */
  lemma WhereMeaning(params: Params, links: LinkTables, record: Row)
    ensures Where(params, links).Ok? <==>
              && (params.condition.Some? ==> Compiles(params.condition.value, links))
              && (params.ids.Some? && params.ids.value != {} ==> IdSet(params.ids.value).Ok?)
    ensures Where(params, links).Ok? ==>
              (Selected(Where(params, links).value, record) <==>
                 && (params.condition.Some? ==> KeepsRecord(params.condition.value, links, record))
                 && (params.ids.Some? && params.ids.value != {} ==>
                       Keeps(SqlIn(ID_COLUMN, IdSet(params.ids.value).value), record)))
  {}

  /**
   * The link-filter rewrite is a correct semi-join: the query runs exactly when every filter does,
   * and keeps exactly the objects on which every filter matches.
   */
  lemma SemiJoin(db: Database, classes: Classes, cls: ClassInfo, filters: map<string, Value>, params: Params,
                 owner: Key)
    requires PositiveIds(db.rows) && owner in db.rows && LinksStored(classes, cls)
    requires IsQuery(db, classes, cls, filters, params.condition, params.ids, filters.Keys)
    ensures Where(params, db.links).Ok? <==> forall key | key in filters :: EntryRuns(cls, key, filters[key])
    ensures Where(params, db.links).Ok? ==>
              (Selected(Where(params, db.links).value, Record(db.rows, owner)) <==>
               forall key | key in filters :: EntryMatches(db, classes, cls, key, filters[key], owner))
  {
    var record := Record(db.rows, owner);
    WhereMeaning(params, db.links, record);
    forall key | key in filters && key != "id"
      ensures EntryCondition(db, classes, cls, key, filters[key])
           in EntryConditions(db, classes, cls, filters, filters.Keys)
    {}
    if params.condition.Some? {
      ConditionMeaning(db, classes, cls, filters, params.condition.value, owner);
    }
    if "id" in filters {
      IdMeaning(Show(filters["id"]), record, owner.id);
    }
  }

  /**
   * The list of a back reference over a LINK field: the objects of the linking class whose field holds the
   * number of the given one, and no others.
   */
  lemma BackLinkQuery(db: Database, cls: string, backReference: Field, n: int, id: int)
    requires LinksTo(backReference, LongId) && backReference.column.value != ID_COLUMN && InRange(LongKind, n)
    ensures var c := Compare(backReference, One(Text(ShowInt(n))), Equal);
            var where := Where(Params(cls, None, Some(c), INT_MAX, 0, None), db.links);
            && where.Ok?
            && (id in Select(db, cls, where.value) <==>
                Key(cls, id) in db.rows && IsNumber(Cell(db.rows[Key(cls, id)], backReference.column.value), n))
  {
    ParseShowInt(LongKind, n);
    var c := Compare(backReference, One(Text(ShowInt(n))), Equal);
    var where := Where(Params(cls, None, Some(c), INT_MAX, 0, None), db.links);
    LinkComparesNumber(backReference, LongKind, Text(ShowInt(n)), n, Equal, db.links, map[]);
    forall key | key in db.rows
      ensures Selected(where.value, Record(db.rows, key)) <==>
              IsNumber(Cell(db.rows[key], backReference.column.value), n)
    {
      LinkComparesNumber(backReference, LongKind, Text(ShowInt(n)), n, Equal, db.links, Record(db.rows, key));
    }
    assert forall key | key in db.rows && key.cls == cls && key.id == id :: key == Key(cls, id);
  }

  /** The hash map's iteration order does not show: any two queries for the same filters agree. */
  lemma OrderImmaterial(db: Database, classes: Classes, cls: ClassInfo, filters: map<string, Value>,
                        p: Params, q: Params, owner: Key)
    requires PositiveIds(db.rows) && owner in db.rows && LinksStored(classes, cls)
    requires IsQuery(db, classes, cls, filters, p.condition, p.ids, filters.Keys)
    requires IsQuery(db, classes, cls, filters, q.condition, q.ids, filters.Keys)
    ensures Where(p, db.links).Ok? <==> Where(q, db.links).Ok?
    ensures Where(p, db.links).Ok? ==>
              (Selected(Where(p, db.links).value, Record(db.rows, owner)) <==>
               Selected(Where(q, db.links).value, Record(db.rows, owner)))
  {
    SemiJoin(db, classes, cls, filters, p, owner);
    SemiJoin(db, classes, cls, filters, q, owner);
  }
}
