/**
 * The table view: attribute values are collected by column, each LINK column is resolved with one
 * batched query, and the columns are transposed into rows.
 */
module TableView {
  import opened Wrappers
  import opened Values
  import opened Meta

  /** An object as it appears in a list: its id and title. */
  datatype ObjectView = ObjectView(id: string, title: string)

  datatype ViewCell = Plain(v: Value) | Linked(view: ObjectView)

  /** A key of the column multimap: null stands for the identifier column. */
  datatype Column = IdColumn | FieldColumn(field: Field)

  type ColumnsData = map<Column, seq<ViewCell>>

  datatype RowView = RowView(id: string, data: seq<ViewCell>)

  datatype TableObjectsView = TableObjectsView(total: int, columns: seq<Column>, rows: seq<RowView>)

  /**
   * What the controller reads: ids and table values of the objects, which fields the view settings
   * show in tables, and the list of every class's objects (absent when its source answers null).
   */
  datatype Context<!T> = Context(
    getId: T -> string,
    valueByTable: (T, Field) -> Value,
    isTableField: Field -> bool,
    views: map<string, seq<ObjectView>>)

  // ---------------------------------------------------------------- one cell at a time

  function FindView(views: seq<ObjectView>, id: string): Option<ObjectView> {
    if views == [] then None
    else if views[0].id == id then Some(views[0])
    else FindView(views[1..], id)
  }

  /** The title object of one linked id, looked up on its own; null when there is none. */
  function LookUp<T>(ctx: Context<T>, f: Field, v: Value): ViewCell {
    if v.Null? || f.linkTo.None? || f.linkTo.value.code !in ctx.views then Plain(Null)
    else match FindView(ctx.views[f.linkTo.value.code], Show(v))
      case None => Plain(Null)
      case Some(view) => Linked(view)
  }

  function CellOf<T>(ctx: Context<T>, o: T, c: Column): ViewCell {
    match c
    case IdColumn => Plain(Text(ctx.getId(o)))
    case FieldColumn(f) =>
      if f.kind.Link? then LookUp(ctx, f, ctx.valueByTable(o, f)) else Plain(ctx.valueByTable(o, f))
  }

  function RowOf<T>(ctx: Context<T>, o: T, columns: seq<Column>): RowView {
    RowView(ctx.getId(o), seq(|columns|, i requires 0 <= i < |columns| => CellOf(ctx, o, columns[i])))
  }

  // ---------------------------------------------------------------- the columns

  function TableColumns<T>(ctx: Context<T>, fields: seq<Field>): seq<Column> {
    if fields == [] then [IdColumn]
    else
      var front, f := TableColumns(ctx, fields[..|fields| - 1]), fields[|fields| - 1];
      if ctx.isTableField(f) then front + [FieldColumn(f)] else front
  }

  lemma {:induction false} TableColumnsMembers<T>(ctx: Context<T>, fields: seq<Field>)
    ensures |TableColumns(ctx, fields)| > 0 && TableColumns(ctx, fields)[0] == IdColumn
    ensures forall c :: c in TableColumns(ctx, fields) <==>
            c.IdColumn? || (c.field in fields && ctx.isTableField(c.field))
  {
    if fields != [] {
      TableColumnsMembers(ctx, fields[..|fields| - 1]);
      assert fields == fields[..|fields| - 1] + [fields[|fields| - 1]];
    }
  }

  /** Columns stand in the order of the class's fields, the identifier in front, and none stands twice. */
  lemma {:induction false} ColumnsInOrder<T>(ctx: Context<T>, fields: seq<Field>, i: nat, j: nat)
    requires Distinct(fields) && i < j < |fields| && ctx.isTableField(fields[i]) && ctx.isTableField(fields[j])
    ensures exists p, q :: 0 < p < q < |TableColumns(ctx, fields)|
                           && TableColumns(ctx, fields)[p] == FieldColumn(fields[i])
                           && TableColumns(ctx, fields)[q] == FieldColumn(fields[j])
  {
    var front, f := fields[..|fields| - 1], fields[|fields| - 1];
    var columns, before := TableColumns(ctx, fields), TableColumns(ctx, front);
    TableColumnsMembers(ctx, front);
    assert before <= columns && front[i] == fields[i];
    if j < |front| {
      ColumnsInOrder(ctx, front, i, j);
      assert front[j] == fields[j];
      var p, q :| 0 < p < q < |before| && before[p] == FieldColumn(front[i]) && before[q] == FieldColumn(front[j]);
      assert columns[p] == FieldColumn(fields[i]) && columns[q] == FieldColumn(fields[j]);
    } else {
      assert FieldColumn(front[i]) in before;
      var p :| 0 <= p < |before| && before[p] == FieldColumn(front[i]);
      assert columns[p] == FieldColumn(fields[i]) && columns[|before|] == FieldColumn(f);
    }
  }

  lemma {:induction false} ColumnsDistinct<T>(ctx: Context<T>, fields: seq<Field>)
    requires Distinct(fields)
    ensures var columns := TableColumns(ctx, fields);
            forall p, q | 0 <= p < q < |columns| :: columns[p] != columns[q]
  {
    if fields != [] {
      var front := fields[..|fields| - 1];
      ColumnsDistinct(ctx, front);
      TableColumnsMembers(ctx, front);
      assert forall p | 0 <= p < |TableColumns(ctx, front)| :: TableColumns(ctx, front)[p] in TableColumns(ctx, front);
    }
  }

  /**
   * A row has one cell for each column, in the order of the columns: the id under the identifier column, the
   * value under a field that is no link, and under a LINK field the listed object whose id the value prints,
   * or null when the value is null, the field links to no class, or no such object is listed.
   */
  lemma RowCells<T>(ctx: Context<T>, o: T, columns: seq<Column>, j: nat)
    requires j < |columns|
    ensures RowOf(ctx, o, columns).id == ctx.getId(o) && |RowOf(ctx, o, columns).data| == |columns|
    ensures var cell := RowOf(ctx, o, columns).data[j];
            match columns[j]
            case IdColumn => cell == Plain(Text(ctx.getId(o)))
            case FieldColumn(f) =>
              var v := ctx.valueByTable(o, f);
              if !f.kind.Link? then cell == Plain(v)
              else if cell.Plain? then
                && cell.v == Null
                && (v.Null? || f.linkTo.None? || f.linkTo.value.code !in ctx.views
                    || forall view | view in ctx.views[f.linkTo.value.code] :: view.id != Show(v))
              else
                && !v.Null? && f.linkTo.Some? && f.linkTo.value.code in ctx.views
                && cell.view in ctx.views[f.linkTo.value.code] && cell.view.id == Show(v)
  {
    if columns[j].FieldColumn? {
      var f := columns[j].field;
      if f.kind.Link? && f.linkTo.Some? && f.linkTo.value.code in ctx.views {
        FindViewFinds(ctx.views[f.linkTo.value.code], Show(ctx.valueByTable(o, f)));
      }
    }
  }

  lemma {:induction false} FindViewFinds(views: seq<ObjectView>, id: string)
    ensures FindView(views, id).Some? ==> FindView(views, id).value in views && FindView(views, id).value.id == id
    ensures FindView(views, id).None? <==> forall v | v in views :: v.id != id
  {
    if views != [] {
      FindViewFinds(views[1..], id);
      assert views == [views[0]] + views[1..];
    }
  }

  function Get(data: ColumnsData, c: Column): seq<ViewCell> {
    if c in data then data[c] else []
  }

  /** `ListMultimap.put`. */
  function Put(data: ColumnsData, c: Column, cell: ViewCell): ColumnsData {
    data[c := Get(data, c) + [cell]]
  }

  function RawCell<T>(ctx: Context<T>, o: T, c: Column): ViewCell {
    match c
    case IdColumn => Plain(Text(ctx.getId(o)))
    case FieldColumn(f) => Plain(ctx.valueByTable(o, f))
  }

  function RawColumn<T>(ctx: Context<T>, objects: seq<T>, c: Column): seq<ViewCell> {
    seq(|objects|, i requires 0 <= i < |objects| => RawCell(ctx, objects[i], c))
  }

  predicate IsTableColumn<T>(ctx: Context<T>, fields: seq<Field>, c: Column) {
    c.IdColumn? || (c.field in fields && ctx.isTableField(c.field))
  }

  predicate Distinct(fields: seq<Field>) {
    fields == [] || (fields[|fields| - 1] !in fields[..|fields| - 1] && Distinct(fields[..|fields| - 1]))
  }

  /** The multimap after one object's values for the given fields. */
  function PutFields<T>(ctx: Context<T>, fields: seq<Field>, o: T, data: ColumnsData): ColumnsData {
    if fields == [] then data
    else
      var front, f := PutFields(ctx, fields[..|fields| - 1], o, data), fields[|fields| - 1];
      if ctx.isTableField(f) then Put(front, FieldColumn(f), RawCell(ctx, o, FieldColumn(f))) else front
  }

  lemma {:induction false} PutFieldsGet<T>(ctx: Context<T>, fields: seq<Field>, o: T, data: ColumnsData, c: Column)
    requires Distinct(fields)
    ensures Get(PutFields(ctx, fields, o, data), c) ==
            Get(data, c)
            + if c.FieldColumn? && c.field in fields && ctx.isTableField(c.field) then [RawCell(ctx, o, c)] else []
    ensures c in PutFields(ctx, fields, o, data) ==> c in data || IsTableColumn(ctx, fields, c)
  {
    if fields != [] {
      var front, f := fields[..|fields| - 1], fields[|fields| - 1];
      assert fields == front + [f];
      PutFieldsGet(ctx, front, o, data, c);
      if c == FieldColumn(f) {
        assert Get(PutFields(ctx, front, o, data), c) == Get(data, c);
      }
    }
  }

  /** One object appends one value to every table column. */
  method PutObject<T>(ctx: Context<T>, fields: seq<Field>, o: T, before: ColumnsData) returns (data: ColumnsData)
    requires Distinct(fields)
    requires forall c | c in before :: IsTableColumn(ctx, fields, c)
    ensures forall c | IsTableColumn(ctx, fields, c) :: Get(data, c) == Get(before, c) + [RawCell(ctx, o, c)]
    ensures forall c | c in data :: IsTableColumn(ctx, fields, c)
  {
    data := Put(before, IdColumn, Plain(Text(ctx.getId(o))));
    ghost var withId := data;
    for j := 0 to |fields|
      invariant data == PutFields(ctx, fields[..j], o, withId)
    {
      assert fields[..j + 1][..j] == fields[..j];
      if ctx.isTableField(fields[j]) {
        data := Put(data, FieldColumn(fields[j]), Plain(ctx.valueByTable(o, fields[j])));
      }
    }
    assert fields[..|fields|] == fields;
    forall c
      ensures IsTableColumn(ctx, fields, c) ==> Get(data, c) == Get(before, c) + [RawCell(ctx, o, c)]
      ensures c in data ==> IsTableColumn(ctx, fields, c)
    {
      PutFieldsGet(ctx, fields, o, withId, c);
    }
  }

  lemma RawColumnGrows<T>(ctx: Context<T>, objects: seq<T>, i: nat, c: Column)
    requires i < |objects|
    ensures RawColumn(ctx, objects[..i + 1], c) == RawColumn(ctx, objects[..i], c) + [RawCell(ctx, objects[i], c)]
  {}

  /** Data by column. */
  method CollectColumns<T>(ctx: Context<T>, fields: seq<Field>, objects: seq<T>) returns (data: ColumnsData)
    requires Distinct(fields)
    ensures forall c | IsTableColumn(ctx, fields, c) :: Get(data, c) == RawColumn(ctx, objects, c)
    ensures forall c | c in data :: IsTableColumn(ctx, fields, c)
  {
    data := map[];
    for i := 0 to |objects|
      invariant forall c | IsTableColumn(ctx, fields, c) :: Get(data, c) == RawColumn(ctx, objects[..i], c)
      invariant forall c | c in data :: IsTableColumn(ctx, fields, c)
    {
      data := PutObject(ctx, fields, objects[i], data);
      forall c | IsTableColumn(ctx, fields, c) ensures Get(data, c) == RawColumn(ctx, objects[..i + 1], c) {
        RawColumnGrows(ctx, objects, i, c);
      }
    }
    assert objects[..|objects|] == objects;
  }

  // ---------------------------------------------------------------- batched link resolution

  predicate DistinctIds(views: seq<ObjectView>) {
    forall i, j | 0 <= i < j < |views| :: views[i].id != views[j].id
  }

  /** The objects of a class restricted to a set of ids: one query for a whole column. */
  function ListByIds(views: seq<ObjectView>, ids: set<string>): seq<ObjectView> {
    if views == [] then []
    else (if views[0].id in ids then [views[0]] else []) + ListByIds(views[1..], ids)
  }

  lemma {:induction false} ListByIdsFinds(views: seq<ObjectView>, ids: set<string>, id: string)
    requires id in ids
    ensures FindView(ListByIds(views, ids), id) == FindView(views, id)
  {
    if views != [] {
      ListByIdsFinds(views[1..], ids, id);
      assert views[0].id in ids ==> ListByIds(views, ids)[1..] == ListByIds(views[1..], ids);
      assert views[0].id !in ids ==> ListByIds(views, ids) == ListByIds(views[1..], ids);
    }
  }

  lemma {:induction false} ListByIdsDistinct(views: seq<ObjectView>, ids: set<string>)
    requires DistinctIds(views)
    ensures DistinctIds(ListByIds(views, ids))
    ensures forall v :: v in ListByIds(views, ids) <==> v in views && v.id in ids
  {
    if views != [] {
      ListByIdsDistinct(views[1..], ids);
      assert views == [views[0]] + views[1..];
      forall v | v in views[1..] ensures v.id != views[0].id {
        var i :| 0 <= i < |views[1..]| && views[1..][i] == v;
        assert views[i + 1] == v;
      }
      assert forall v | v in ListByIds(views[1..], ids) :: v in views[1..];
    }
  }

  lemma {:induction false} FindViewIs(views: seq<ObjectView>, i: nat)
    requires DistinctIds(views) && i < |views|
    ensures FindView(views, views[i].id) == Some(views[i])
  {
    if i > 0 {
      FindViewIs(views[1..], i - 1);
    }
  }

  /** The map from id to view: a later object with the same id would replace an earlier one. */
  method MapById(views: seq<ObjectView>) returns (keys: map<string, ObjectView>)
    requires DistinctIds(views)
    ensures forall id ::
              (id in keys <==> FindView(views, id).Some?) && (id in keys ==> Some(keys[id]) == FindView(views, id))
  {
    keys := map[];
    for i := 0 to |views|
      invariant forall id | id in keys :: exists j | 0 <= j < i :: views[j].id == id && views[j] == keys[id]
      invariant forall j | 0 <= j < i :: views[j].id in keys
    {
      keys := keys[views[i].id := views[i]];
    }
    forall id
      ensures (id in keys <==> FindView(views, id).Some?) && (id in keys ==> Some(keys[id]) == FindView(views, id))
    {
      FindViewFinds(views, id);
      if id in keys {
        var j :| 0 <= j < |views| && views[j].id == id && views[j] == keys[id];
        FindViewIs(views, j);
      }
    }
  }

  function ResolvedColumn<T>(ctx: Context<T>, f: Field, cells: seq<ViewCell>): seq<ViewCell> {
    seq(|cells|, i requires 0 <= i < |cells| => if cells[i].Plain? then LookUp(ctx, f, cells[i].v) else cells[i])
  }

  /** Primary keys: no class lists one id twice. */
  predicate KeysUnique<T>(ctx: Context<T>) {
    forall code | code in ctx.views :: DistinctIds(ctx.views[code])
  }

  predicate AllPlain(cells: seq<ViewCell>) {
    forall i | 0 <= i < |cells| :: cells[i].Plain?
  }

  predicate HasIds(cells: seq<ViewCell>)
    requires AllPlain(cells)
  {
    exists i | 0 <= i < |cells| :: !cells[i].v.Null?
  }

  /** Resolves one LINK column with one query; a LINK field without a class fails once an id is present. */
  method FillLinkColumn<T>(ctx: Context<T>, cells: seq<ViewCell>, f: Field) returns (r: Result<seq<ViewCell>>)
    requires KeysUnique(ctx) && AllPlain(cells)
    ensures r.Ok? <==> f.linkTo.Some? || !HasIds(cells)
    ensures r.Ok? ==> r.value == ResolvedColumn(ctx, f, cells)
  {
    var idsStr: set<string> := {};
    for i := 0 to |cells|
      invariant forall k | 0 <= k < i && !cells[k].v.Null? :: Show(cells[k].v) in idsStr
      invariant idsStr == {} <==> forall k | 0 <= k < i :: cells[k].v.Null?
    {
      if !cells[i].v.Null? {
        idsStr := idsStr + {Show(cells[i].v)};
      }
    }
    if idsStr == {} {
      assert cells == ResolvedColumn(ctx, f, cells);
      return Ok(cells);
    }
    assert HasIds(cells);
    if f.linkTo.None? {
      return Err(NullPointer);
    }
    var all := if f.linkTo.value.code in ctx.views then ctx.views[f.linkTo.value.code] else [];
    ListByIdsDistinct(all, idsStr);
    var dataKeys := MapById(ListByIds(all, idsStr));
    var objs: seq<ViewCell> := [];
    for i := 0 to |cells|
      invariant |objs| == i
      invariant forall k | 0 <= k < i :: objs[k] == LookUp(ctx, f, cells[k].v)
    {
      var v := cells[i].v;
      if !v.Null? {
        assert Show(v) in idsStr;
        ListByIdsFinds(all, idsStr, Show(v));
      }
      objs := objs + [if !v.Null? && Show(v) in dataKeys then Linked(dataKeys[Show(v)]) else Plain(Null)];
    }
    r := Ok(objs);
  }

  // ---------------------------------------------------------------- the table

  /** A LINK table field without a linked class that some object has a value for. */
  predicate Unresolvable<T>(ctx: Context<T>, fields: seq<Field>, objects: seq<T>) {
    exists f, i | f in fields && 0 <= i < |objects| ::
      ctx.isTableField(f) && f.kind.Link? && f.linkTo.None? && !ctx.valueByTable(objects[i], f).Null?
  }

  function FinalColumn<T>(ctx: Context<T>, objects: seq<T>, c: Column): seq<ViewCell> {
    seq(|objects|, i requires 0 <= i < |objects| => CellOf(ctx, objects[i], c))
  }

  predicate IsLinkColumn(c: Column) {
    c.FieldColumn? && c.field.kind.Link?
  }

  /** No object has a value for the field. */
  predicate AllNull<T>(ctx: Context<T>, objects: seq<T>, f: Field) {
    forall i | 0 <= i < |objects| :: ctx.valueByTable(objects[i], f).Null?
  }

  /** One LINK column, from raw values to resolved ones. */
  method ResolveColumn<T>(ctx: Context<T>, objects: seq<T>, c: Column,
                          cells: seq<ViewCell>) returns (r: Result<seq<ViewCell>>)
    requires KeysUnique(ctx) && IsLinkColumn(c) && cells == RawColumn(ctx, objects, c)
    ensures r.Ok? <==> c.field.linkTo.Some? || AllNull(ctx, objects, c.field)
    ensures r.Ok? ==> r.value == FinalColumn(ctx, objects, c)
  {
    assert HasIds(cells) <==> !AllNull(ctx, objects, c.field) by {
      if i :| 0 <= i < |objects| && !ctx.valueByTable(objects[i], c.field).Null? {
        assert !cells[i].v.Null?;
      }
    }
    r := FillLinkColumn(ctx, cells, c.field);
    assert r.Ok? ==> r.value == FinalColumn(ctx, objects, c);
  }

  /** A column holds its final cells; a LINK column got there because its ids could be looked up. */
  predicate Finished<T>(ctx: Context<T>, objects: seq<T>, data: ColumnsData, c: Column) {
    && Get(data, c) == FinalColumn(ctx, objects, c)
    && (IsLinkColumn(c) ==> c.field.linkTo.Some? || AllNull(ctx, objects, c.field))
  }

  lemma FinishedAtOnce<T>(ctx: Context<T>, objects: seq<T>, data: ColumnsData, c: Column)
    requires Get(data, c) == RawColumn(ctx, objects, c) && !(c in data && IsLinkColumn(c))
    ensures Finished(ctx, objects, data, c)
  {
    if IsLinkColumn(c) {
      assert |Get(data, c)| == 0;
    }
  }

  lemma AllFinished<T>(ctx: Context<T>, fields: seq<Field>, objects: seq<T>, data: ColumnsData)
    requires forall c | IsTableColumn(ctx, fields, c) :: Finished(ctx, objects, data, c)
    ensures !Unresolvable(ctx, fields, objects)
  {
    forall f, i | f in fields && 0 <= i < |objects| && ctx.isTableField(f) && f.kind.Link? && f.linkTo.None?
      ensures ctx.valueByTable(objects[i], f).Null?
    {
      assert Finished(ctx, objects, data, FieldColumn(f));
    }
  }

  /** The LINK columns in any order; the others are final as they are. */
  method ResolveLinks<T>(ctx: Context<T>, fields: seq<Field>, objects: seq<T>,
                         raw: ColumnsData) returns (r: Result<ColumnsData>)
    requires KeysUnique(ctx)
    requires forall c | IsTableColumn(ctx, fields, c) :: Get(raw, c) == RawColumn(ctx, objects, c)
    requires forall c | c in raw :: IsTableColumn(ctx, fields, c)
    ensures r.Err? <==> Unresolvable(ctx, fields, objects)
    ensures r.Ok? ==> forall c | IsTableColumn(ctx, fields, c) :: Get(r.value, c) == FinalColumn(ctx, objects, c)
  {
    var data := raw;
    var rest := set c | c in raw && IsLinkColumn(c);
    forall c | IsTableColumn(ctx, fields, c) && c !in rest ensures Finished(ctx, objects, raw, c) {
      FinishedAtOnce(ctx, objects, raw, c);
    }
    while rest != {}
      invariant forall c | c in rest :: IsLinkColumn(c) && IsTableColumn(ctx, fields, c)
      invariant forall c | c in rest :: Get(data, c) == RawColumn(ctx, objects, c)
      invariant forall c | IsTableColumn(ctx, fields, c) && c !in rest :: Finished(ctx, objects, data, c)
      decreases rest
    {
      var c :| c in rest;
      var filled := ResolveColumn(ctx, objects, c, Get(data, c));
      if filled.Err? {
        var i :| 0 <= i < |objects| && !ctx.valueByTable(objects[i], c.field).Null?;
        return Err(filled.error);
      }
      data := data[c := filled.value];
      rest := rest - {c};
    }
    AllFinished(ctx, fields, objects, data);
    r := Ok(data);
  }

  /** Data by column becomes data by row. */
  method Transpose<T>(ctx: Context<T>, objects: seq<T>, columns: seq<Column>,
                      data: ColumnsData) returns (rows: seq<RowView>)
    requires forall c | c in columns :: Get(data, c) == FinalColumn(ctx, objects, c)
    ensures |rows| == |objects|
    ensures forall i | 0 <= i < |objects| :: rows[i] == RowOf(ctx, objects[i], columns)
  {
    rows := [];
    for i := 0 to |objects|
      invariant |rows| == i
      invariant forall k | 0 <= k < i :: rows[k] == RowOf(ctx, objects[k], columns)
    {
      var row: seq<ViewCell> := [];
      for j := 0 to |columns|
        invariant row == RowOf(ctx, objects[i], columns).data[..j]
      {
        assert columns[j] in columns;
        row := row + [Get(data, columns[j])[i]];
      }
      rows := rows + [RowView(ctx.getId(objects[i]), row)];
    }
  }

  /**
   * The table is the per-cell table: row i holds object i, every cell is what a lookup of that one
   * value gives, and it fails only on a LINK field that has values and no linked class.
   */
  method ConvertTableObjects<T>(ctx: Context<T>, fields: seq<Field>, objects: seq<T>, total: Option<int>)
    returns (r: Result<TableObjectsView>)
    requires Distinct(fields) && KeysUnique(ctx)
    ensures r.Err? <==> Unresolvable(ctx, fields, objects)
    ensures r.Ok? ==>
              var columns := TableColumns(ctx, fields);
              && r.value.columns == columns
              && r.value.total == (if total.Some? then total.value else |objects|)
              && |r.value.rows| == |objects|
              && forall i | 0 <= i < |objects| :: r.value.rows[i] == RowOf(ctx, objects[i], columns)
  {
    var columns := TableColumns(ctx, fields);
    TableColumnsMembers(ctx, fields);
    var raw := CollectColumns(ctx, fields, objects);
    var data := ResolveLinks(ctx, fields, objects, raw);
    if data.Err? {
      return Err(data.error);
    }
    var objectsView := Transpose(ctx, objects, columns, data.value);
    r := Ok(TableObjectsView(if total.Some? then total.value else |objectsView|, columns, objectsView));
  }
}
