/** The compiler from conditions to SQL, and the proof that it preserves their meaning. */
module ConvertToJooq {
  import opened Wrappers
  import opened Values
  import opened Meta
  import opened Conditions
  import opened Sql
  import Like

  // ---------------------------------------------------------------- the compiler

  function ConvertValue(v: Value, idType: IdType): Result<Value> {
    if v.Null? then Err(NullPointer)
    else match idType
      case LongId => var n :- ParseNum(LongKind, Show(v)); Ok(Num(LongKind, n))
      case IntegerId => var n :- ParseNum(IntegerKind, Show(v)); Ok(Num(IntegerKind, n))
      case StringId => Ok(Text(Show(v)))
      case OtherId => Ok(v)
  }

  predicate HasClass(v: Value, idType: IdType) {
    match idType
    case LongId => v.Num? && v.kind.LongKind?
    case IntegerId => v.Num? && v.kind.IntegerKind?
    case StringId => v.Text?
    case OtherId => false
  }

  /** Brings the operand of a LINK comparison to the linked class's identifier type. */
  function NormaliseLink(field: Field, operand: Operand): Result<Operand> {
    if !field.kind.Link? || field.linkTo.None? then Ok(operand)
    else
      var idType := field.linkTo.value.idType;
      match operand
      case One(v) =>
        if v.Null? || HasClass(v, idType) then Ok(operand)
        else var w :- ConvertValue(v, idType); Ok(One(w))
      case Many(vs) =>
        if exists v | v in vs :: ConvertValue(v, idType).Err? then Err(NumberFormat)
        else Ok(Many(set v | v in vs :: ConvertValue(v, idType).value))
  }

  function ConvertCompare(column: string, operand: Operand, op: CompareOperation): Result<Sql> {
    match (op, operand)
    case (Equal, One(v)) => Ok(SqlCompare(column, Eq, v))
    case (Great, One(v)) => Ok(SqlCompare(column, Gt, v))
    case (Less, One(v)) => Ok(SqlCompare(column, Lt, v))
    case (In, One(v)) => Ok(SqlIn(column, {v}))
    case (In, Many(vs)) => Ok(SqlIn(column, vs))
    case (LikeOp, One(v)) => Ok(SqlLike(column, Like.Pattern(Like.Anywhere, Show(v))))
    case (EndWith, One(v)) => Ok(SqlLike(column, Like.Pattern(Like.Suffix, Show(v))))
    case (StartWith, One(v)) => Ok(SqlLike(column, Like.Pattern(Like.Prefix, Show(v))))
    case (_, Many(_)) => Err(NotSupported)
  }

  /** A comparison on a MULTILINK field asks the link table for the owners, whatever the operation. */
  function ConvertMultilink(field: Field, operand: Operand, links: LinkTables): Result<Sql> {
    match operand
    case One(Null) => Err(NullPointer)
    case One(v) =>
      var to :- ParseNum(LongKind, Show(v));
      var owners := Reverse(LinksOf(links, field.nxmTable), to);
      if owners == [] then Ok(SqlCompare(ID_COLUMN, Eq, Num(IntegerKind, 0)))
      else Ok(SqlIn(ID_COLUMN, set id | id in owners :: Num(LongKind, id)))
    case Many(_) => Err(NumberFormat)
  }

  function Convert(c: Condition, links: LinkTables): Result<Sql> {
    match c
    case And(first, second) =>
      var l :- Convert(first, links);
      var r :- Convert(second, links);
      Ok(SqlAnd(l, r))
    case Or(first, second) =>
      var l :- Convert(first, links);
      var r :- Convert(second, links);
      Ok(SqlOr(l, r))
    case Compare(field, operand, op) =>
      var operand' :- NormaliseLink(field, operand);
      if field.kind.MultiLink? then ConvertMultilink(field, operand', links)
      else if field.column.None? then Err(IllegalArgument)
      else ConvertCompare(field.column.value, operand', op)
  }

  // ---------------------------------------------------------------- typed rows

  datatype ColumnType = NumColumn(kind: NumKind) | TextColumn | BoolColumn

  predicate HasType(v: Value, t: ColumnType) {
    match t
    case NumColumn(kind) => v.Num? && v.kind == kind && InRange(kind, v.n)
    case TextColumn => v.Text?
    case BoolColumn => v.Bool?
  }

  type Schema = map<string, ColumnType>

  /** Every column holds null or a value of its type, and text is case-folded. */
  predicate Conforms(row: Row, schema: Schema) {
    forall column | column in schema ::
      var v := Cell(row, column);
      !v.Null? ==> HasType(v, schema[column]) && (v.Text? ==> Like.Folded(v.s))
  }

  /** How the in-memory checker reads a record. */
  function Extractor(row: Row): Field -> Value {
    (f: Field) => if f.column.Some? then Cell(row, f.column.value) else Null
  }

  /** The database accepts the compiled condition and keeps exactly the rows the checker accepts. */
  ghost predicate Preserved(c: Condition, schema: Schema, links: LinkTables) {
    && Convert(c, links).Ok?
    && var sql := Convert(c, links).value;
    && Runs(sql)
    && forall row | Conforms(row, schema) :: Check(Extractor(row), c) == Ok(Keeps(sql, row))
  }

  /** Comparisons with a column; on a LINK field the operand is null or already an identifier of the linked class. */
  predicate OnColumn(c: Condition, schema: Schema) {
    match c
    case And(first, second) => OnColumn(first, schema) && OnColumn(second, schema)
    case Or(first, second) => OnColumn(first, schema) && OnColumn(second, schema)
    case Compare(field, operand, op) =>
      && !field.kind.MultiLink?
      && field.column.Some? && field.column.value in schema
      && operand.One? && Representable(operand.v)
      && (field.kind.Link? && field.linkTo.Some? && !operand.v.Null? ==>
            HasClass(operand.v, field.linkTo.value.idType))
      && FitsColumn(operand.v, op, schema[field.column.value])
  }

  /** An order's or equality's operand is of the column's family, or null; text operations go by the printed value. */
  predicate FitsColumn(v: Value, op: CompareOperation, t: ColumnType) {
    !IsTextOperation(op) && !v.Null? ==>
      match t
      case NumColumn(_) => v.Num?
      case TextColumn => v.Text?
      case BoolColumn => v.Bool?
  }

  /**
   * When a single comparison may be pushed to the database:
   *  - EQUAL needs a non-null operand; an operand of another width must lie outside the column's range;
   *  - GREAT needs an operand of the column's own width, and for Short one that no value exceeds by two;
   *  - the text operations need a non-null operand in lower case without `%`, `_` and backslash, on
   *    number and boolean columns as on text;
   *  - LESS and IN never agree.
   */
  predicate SafeCompare(v: Value, op: CompareOperation, t: ColumnType) {
    && !v.Null?
    && match op
       case Equal => v.Num? && t.NumColumn? && v.kind != t.kind ==> !InRange(t.kind, v.n)
       case Great => v.Num? && t.NumColumn? && v.kind == t.kind && (t.kind.ShortKind? ==> v.n + 2 > MaxOf(ShortKind))
       case LikeOp | StartWith | EndWith => Like.Plain(Show(v)) && Like.Folded(Show(v))
       case Less | In => false
  }

  predicate Safe(c: Condition, schema: Schema)
    requires OnColumn(c, schema)
  {
    match c
    case And(first, second) => Safe(first, schema) && Safe(second, schema)
    case Or(first, second) => Safe(first, schema) && Safe(second, schema)
    case Compare(field, operand, op) => SafeCompare(operand.v, op, schema[field.column.value])
  }

  // ---------------------------------------------------------------- one comparison

  function Leaf(v: Value, op: CompareOperation, column: string): Sql {
    ConvertCompare(column, One(v), op).value
  }

  /** What `Preserved` asks of one cell. */
  predicate CellAgrees(cell: Value, v: Value, op: CompareOperation, column: string) {
    CheckCompare(cell, v, op) == Ok(Keeps(Leaf(v, op, column), map[column := cell]))
  }

  predicate CellFits(cell: Value, t: ColumnType) {
    cell.Null? || (HasType(cell, t) && (cell.Text? ==> Like.Folded(cell.s)))
  }

  lemma EvalDependsOnCell(v: Value, op: CompareOperation, column: string, row: Row)
    ensures Keeps(Leaf(v, op, column), row) == Keeps(Leaf(v, op, column), map[column := Cell(row, column)])
  {}

  /** A row that has the given cell and null elsewhere. */
  lemma CellRow(cell: Value, column: string, schema: Schema)
    requires column in schema && CellFits(cell, schema[column])
    ensures Conforms(map[column := cell], schema)
  {}

  lemma LeafToCells(c: Condition, schema: Schema, links: LinkTables)
    requires c.Compare? && OnColumn(c, schema)
    ensures Convert(c, links) == Ok(Leaf(c.operand.v, c.op, c.field.column.value))
    ensures Preserved(c, schema, links) <==>
            var column := c.field.column.value;
            && Runs(Leaf(c.operand.v, c.op, column))
            && forall cell | CellFits(cell, schema[column]) :: CellAgrees(cell, c.operand.v, c.op, column)
  {
    var v, op, column := c.operand.v, c.op, c.field.column.value;
    var sql := Leaf(v, op, column);
    if Preserved(c, schema, links) {
      forall cell | CellFits(cell, schema[column]) ensures CellAgrees(cell, v, op, column) {
        CellRow(cell, column, schema);
        assert Check(Extractor(map[column := cell]), c) == Ok(Keeps(sql, map[column := cell]));
      }
    }
    if Runs(sql) && forall cell | CellFits(cell, schema[column]) :: CellAgrees(cell, v, op, column) {
      forall row | Conforms(row, schema) ensures Check(Extractor(row), c) == Ok(Keeps(sql, row)) {
        EvalDependsOnCell(v, op, column, row);
        assert CellAgrees(Cell(row, column), v, op, column);
      }
    }
  }

  /** Digits, the minus sign and the words true and false are in lower case already. */
  lemma ShownIsFolded(cell: Value, t: ColumnType)
    requires CellFits(cell, t)
    ensures Like.Folded(Show(cell))
  {
    match cell
    case Null => assert Show(cell) == "null";
    case Num(_, n) => ShowIntAscii(n);
    case Text(s) =>
    case Bool(b) => assert Show(cell) == if b then "true" else "false";
  }

  lemma {:induction false} ShowNatAscii(n: nat)
    ensures forall c | c in ShowNat(n) :: '0' <= c <= '9'
  {
    if n >= 10 {
      ShowNatAscii(n / 10);
    }
  }

  lemma ShowIntAscii(n: int)
    ensures Like.Folded(ShowInt(n))
  {
    ShowNatAscii(if n < 0 then -n else n);
    forall i | 0 <= i < |ShowInt(n)| ensures Like.LOWER(ShowInt(n)[i]) == ShowInt(n)[i] {
      assert ShowInt(n)[i] == '-' || ShowInt(n)[i] in ShowNat(if n < 0 then -n else n);
    }
  }

  lemma SafeCellAgrees(cell: Value, v: Value, op: CompareOperation, column: string, t: ColumnType)
    requires CellFits(cell, t) && Representable(v) && FitsColumn(v, op, t) && SafeCompare(v, op, t)
    ensures CellAgrees(cell, v, op, column)
  {
    if IsTextOperation(op) && !cell.Null? {
      Like.AgreesIffPlain(TextOpOf(op), Show(v));
      ShownIsFolded(cell, t);
      TextLeaf(v, op, column, cell);
    }
  }

  lemma SafeLeafRuns(v: Value, op: CompareOperation, column: string, t: ColumnType)
    requires SafeCompare(v, op, t)
    ensures Runs(Leaf(v, op, column))
  {
    if IsTextOperation(op) {
      Like.AgreesIffPlain(TextOpOf(op), Show(v));
    }
  }

  lemma LikeKeeps(column: string, pattern: string, cell: Value)
    ensures Keeps(SqlLike(column, pattern), map[column := cell]) <==> !cell.Null? && Like.ILike(Show(cell), pattern)
  {
    assert Cell(map[column := cell], column) == cell;
  }

  lemma TextLeaf(v: Value, op: CompareOperation, column: string, cell: Value)
    requires IsTextOperation(op)
    ensures Leaf(v, op, column) == SqlLike(column, Like.Pattern(TextOpOf(op), Show(v)))
    ensures !v.Null? && !cell.Null? ==>
              (CellAgrees(cell, v, op, column) <==>
               Like.Holds(TextOpOf(op), Show(cell), Show(v)) ==
               Like.ILike(Show(cell), Like.Pattern(TextOpOf(op), Show(v))))
  {
    LikeKeeps(column, Like.Pattern(TextOpOf(op), Show(v)), cell);
  }

  lemma UnsafeTextCell(v: Value, op: CompareOperation, column: string) returns (cell: Value)
    requires IsTextOperation(op) && !v.Null? && !SafeCompare(v, op, TextColumn)
    ensures CellFits(cell, TextColumn)
    ensures !Runs(Leaf(v, op, column)) || !CellAgrees(cell, v, op, column)
  {
    var textOp, text := TextOpOf(op), Show(v);
    Like.AgreesIffPlain(textOp, text);
    cell := Null;
    TextLeaf(v, op, column, Null);
    if Like.WellFormed(Like.Pattern(textOp, text)) {
      var s :| Like.Folded(s) && Like.ILike(s, Like.Pattern(textOp, text)) != Like.Holds(textOp, s, text);
      cell := Text(s);
      TextLeaf(v, op, column, cell);
    }
  }

  lemma UnsafeNumberCell(v: Value, op: CompareOperation, column: string, t: ColumnType) returns (cell: Value)
    requires v.Num? && t.NumColumn? && v.kind == t.kind && Representable(v)
    requires op.Less? || op.Great?
    requires !SafeCompare(v, op, t)
    ensures CellFits(cell, t)
    ensures !CellAgrees(cell, v, op, column)
  {
    var n := if op.Great? then v.n + 2 else if v.n > MinOf(t.kind) then v.n - 1 else v.n + 1;
    cell := Num(t.kind, n);
    assert Cell(map[column := cell], column) == cell;
  }

  /** An unsafe comparison is refuted by a concrete cell, or the database refuses its pattern. */
  lemma UnsafeCell(v: Value, op: CompareOperation, column: string, t: ColumnType) returns (cell: Value)
    requires Representable(v) && FitsColumn(v, op, t) && !SafeCompare(v, op, t)
    requires IsTextOperation(op) && !v.Null? ==> t.TextColumn?
    ensures CellFits(cell, t)
    ensures !Runs(Leaf(v, op, column)) || !CellAgrees(cell, v, op, column)
  {
    if IsTextOperation(op) && !v.Null? {
      cell := UnsafeTextCell(v, op, column);
    } else if IsTextOperation(op) || op.In? {
      cell := Null;
    } else if op.Equal? {
      cell := if v.Null? then Null else Num(t.kind, v.n);
    } else if v.Num? && t.NumColumn? && v.kind == t.kind {
      cell := UnsafeNumberCell(v, op, column, t);
    } else {
      cell := SomeValue(t);
    }
    assert Cell(map[column := cell], column) == cell;
  }

  function SomeValue(t: ColumnType): (v: Value)
    ensures HasType(v, t) && (v.Text? ==> Like.Folded(v.s))
  {
    match t
    case NumColumn(kind) => Num(kind, 0)
    case TextColumn => Text("")
    case BoolColumn => Bool(true)
  }

  /**
   * Exactly when a single comparison means the same in the database and in memory, for every row of the
   * schema and any mix of nulls; for a text operation on a number or boolean column, that it does when safe.
   */
  lemma ComparePreservedIffSafe(c: Condition, schema: Schema, links: LinkTables)
    requires c.Compare? && OnColumn(c, schema)
    ensures Safe(c, schema) ==> Preserved(c, schema, links)
    ensures !IsTextOperation(c.op) || c.operand.v.Null? || schema[c.field.column.value].TextColumn? ==>
              (Preserved(c, schema, links) <==> Safe(c, schema))
  {
    LeafToCells(c, schema, links);
    var v, op, column := c.operand.v, c.op, c.field.column.value;
    var t := schema[column];
    if SafeCompare(v, op, t) {
      SafeLeafRuns(v, op, column, t);
      forall cell | CellFits(cell, t) ensures CellAgrees(cell, v, op, column) {
        SafeCellAgrees(cell, v, op, column, t);
      }
    } else if !IsTextOperation(op) || v.Null? || t.TextColumn? {
      var cell := UnsafeCell(v, op, column, t);
    }
  }

  lemma PreservedAnd(first: Condition, second: Condition, schema: Schema, links: LinkTables)
    requires Preserved(first, schema, links) && Preserved(second, schema, links)
    ensures Preserved(And(first, second), schema, links)
  {}

  lemma PreservedOr(first: Condition, second: Condition, schema: Schema, links: LinkTables)
    requires Preserved(first, schema, links) && Preserved(second, schema, links)
    ensures Preserved(Or(first, second), schema, links)
  {}

  /** Compilation preserves meaning: every tree of safe comparisons, on every row, nulls included. */
  lemma {:induction false} ConversionPreservesMeaning(c: Condition, schema: Schema, links: LinkTables)
    requires OnColumn(c, schema) && Safe(c, schema)
    ensures Preserved(c, schema, links)
  {
    match c
    case Compare(_, _, _) =>
      ComparePreservedIffSafe(c, schema, links);
    case And(first, second) =>
      ConversionPreservesMeaning(first, schema, links);
      ConversionPreservesMeaning(second, schema, links);
      PreservedAnd(first, second, schema, links);
    case Or(first, second) =>
      ConversionPreservesMeaning(first, schema, links);
      ConversionPreservesMeaning(second, schema, links);
      PreservedOr(first, second, schema, links);
  }

  // ---------------------------------------------------------------- LINK

  predicate Compiles(c: Condition, links: LinkTables) {
    Convert(c, links).Ok?
  }

  predicate KeepsRecord(c: Condition, links: LinkTables, record: Row) {
    Convert(c, links).Ok? && Keeps(Convert(c, links).value, record)
  }

  predicate IsNumber(cell: Value, n: int) {
    cell.Num? && cell.n == n
  }

  /** A LINK field with a column, to a class of the data source that identifies its objects so. */
  predicate LinksTo(field: Field, idType: IdType) {
    field.kind.Link? && field.column.Some? && field.linkTo.Some? && field.linkTo.value.idType == idType
  }

  /** The identifiers of the linked class are boxed integers of this width. */
  predicate LinksByNumber(field: Field, k: NumKind) {
    (k.LongKind? && LinksTo(field, LongId)) || (k.IntegerKind? && LinksTo(field, IntegerId))
  }

  /** A boxed number prints as it reads. */
  lemma PrintedReads(k: NumKind, m: int)
    requires InRange(k, m)
    ensures ParseNum(k, Show(Num(k, m))) == Ok(m)
  {
    ParseShowInt(k, m);
  }

  lemma LinkReadsNumber(field: Field, k: NumKind, v: Value, n: int)
    requires LinksByNumber(field, k) && Representable(v) && !v.Null? && ParseNum(k, Show(v)) == Ok(n)
    ensures NormaliseLink(field, One(v)) == Ok(One(Num(k, n)))
  {
    if v.Num? && v.kind == k {
      PrintedReads(k, v.n);
    }
  }

  /** Values the database takes for equal: numbers of one value whatever their width, the same text or boolean. */
  predicate SameInSql(cell: Value, v: Value) {
    if cell.Num? && v.Num? then cell.n == v.n else cell == v && !v.Null?
  }

  lemma PlainLeaf(column: string, v: Value, op: CompareOperation, record: Row)
    requires !IsTextOperation(op)
    ensures Keeps(Leaf(v, op, column), record) <==>
            var cell := Cell(record, column);
            if op.Great? then !v.Null? && Before(v, cell)
            else if op.Less? then !cell.Null? && Before(cell, v)
            else SameInSql(cell, v)
  {
    assert v in {v};
  }

  /**
   * A comparison on a LINK field is by the number the operand prints, whatever the operand's class: text
   * that reads as the identifier n compares with the cell as n does, and `+7` is looked for as `7`.
   */
  lemma LinkComparesNumber(field: Field, k: NumKind, v: Value, n: int, op: CompareOperation, links: LinkTables,
                           record: Row)
    requires LinksByNumber(field, k) && Representable(v) && !v.Null? && ParseNum(k, Show(v)) == Ok(n)
    ensures Compiles(Compare(field, One(v), op), links)
    ensures var cell := Cell(record, field.column.value);
            KeepsRecord(Compare(field, One(v), op), links, record) <==>
            match op
            case Equal | In => cell.Num? && cell.n == n
            case Great => cell.Num? && cell.n > n
            case Less => cell.Num? && cell.n < n
            case LikeOp => !cell.Null? && Like.ILike(Show(cell), "%" + ShowInt(n) + "%")
            case StartWith => !cell.Null? && Like.ILike(Show(cell), ShowInt(n) + "%")
            case EndWith => !cell.Null? && Like.ILike(Show(cell), "%" + ShowInt(n))
  {
    LinkReadsNumber(field, k, v, n);
    if !IsTextOperation(op) {
      PlainLeaf(field.column.value, Num(k, n), op, record);
    }
  }

  /** An operand that prints no number of the identifiers' width is refused, whatever the operation. */
  lemma LinkRefusesText(field: Field, k: NumKind, v: Value, op: CompareOperation, links: LinkTables)
    requires LinksByNumber(field, k) && Representable(v) && !v.Null? && ParseNum(k, Show(v)).Err?
    ensures !Compiles(Compare(field, One(v), op), links)
  {
    if v.Num? && v.kind == k {
      PrintedReads(k, v.n);
    }
  }

  /**
   * Equality of a LINK field with anything but a boxed identifier, text included, is converted in the
   * database and never equal in memory: the two disagree on some row, or the operand is refused.
   */
  lemma LinkTextDisagrees(field: Field, k: NumKind, v: Value, schema: Schema, links: LinkTables)
    requires LinksByNumber(field, k) && Representable(v) && !v.Null? && !(v.Num? && v.kind == k)
    requires field.column.value in schema && schema[field.column.value] == NumColumn(k)
    ensures !Preserved(Compare(field, One(v), Equal), schema, links)
  {
    var c := Compare(field, One(v), Equal);
    if ParseNum(k, Show(v)).Ok? {
      var n := ParseNum(k, Show(v)).value;
      var row := map[field.column.value := Num(k, n)];
      LinkComparesNumber(field, k, v, n, Equal, links, row);
      CellRow(Num(k, n), field.column.value, schema);
      assert Cell(row, field.column.value) == Num(k, n) && KeepsRecord(c, links, row);
      assert Check(Extractor(row), c) == Ok(false);
    } else {
      LinkRefusesText(field, k, v, Equal, links);
    }
  }

  lemma LinkReadsText(field: Field, v: Value)
    requires LinksTo(field, StringId) && !v.Null?
    ensures NormaliseLink(field, One(v)) == Ok(One(Text(Show(v))))
  {}

  /** Where identifiers are text the operand is compared as the text it prints. */
  lemma LinkComparesText(field: Field, v: Value, op: CompareOperation, links: LinkTables, record: Row)
    requires LinksTo(field, StringId) && !v.Null?
    ensures Compiles(Compare(field, One(v), op), links)
    ensures var cell := Cell(record, field.column.value);
            KeepsRecord(Compare(field, One(v), op), links, record) <==>
            match op
            case Equal | In => cell == Text(Show(v))
            case Great => cell.Text? && TextBefore(Show(v), cell.s)
            case Less => cell.Text? && TextBefore(cell.s, Show(v))
            case LikeOp => !cell.Null? && Like.ILike(Show(cell), "%" + Show(v) + "%")
            case StartWith => !cell.Null? && Like.ILike(Show(cell), Show(v) + "%")
            case EndWith => !cell.Null? && Like.ILike(Show(cell), "%" + Show(v))
  {
    LinkReadsText(field, v);
    if !IsTextOperation(op) {
      PlainLeaf(field.column.value, Text(Show(v)), op, record);
    }
  }

  /** Null is compared as SQL null: no order, equality or membership keeps a record. */
  lemma NullKeepsNothing(field: Field, op: CompareOperation, links: LinkTables, record: Row)
    requires !field.kind.MultiLink? && field.column.Some? && !IsTextOperation(op)
    ensures Compiles(Compare(field, One(Null), op), links)
    ensures !KeepsRecord(Compare(field, One(Null), op), links, record)
  {}

  lemma InNumbers(column: string, k: NumKind, ns: set<int>, record: Row)
    ensures Keeps(SqlIn(column, set n | n in ns :: Num(k, n)), record) <==>
            Cell(record, column).Num? && Cell(record, column).n in ns
  {
    var cell := Cell(record, column);
    if cell.Num? && cell.n in ns {
      var v := Num(k, cell.n);
      assert v in (set n | n in ns :: Num(k, n)) && CompareValues(Eq, cell, v).True?;
    }
  }

  /** The numbers a collection of operands reads as. */
  lemma NumbersOf(field: Field, k: NumKind, vs: set<Value>) returns (ns: set<int>)
    requires LinksByNumber(field, k) && forall v | v in vs :: !v.Null? && ParseNum(k, Show(v)).Ok?
    ensures NormaliseLink(field, Many(vs)) == Ok(Many(set n | n in ns :: Num(k, n)))
    ensures forall n :: n in ns <==> exists v | v in vs :: ParseNum(k, Show(v)) == Ok(n)
  {
    var idType := field.linkTo.value.idType;
    ns := set v | v in vs :: ParseNum(k, Show(v)).value;
    var ws := set v | v in vs :: ConvertValue(v, idType).value;
    forall v | v in vs ensures ConvertValue(v, idType) == Ok(Num(k, ParseNum(k, Show(v)).value)) {}
    forall n | n in ns ensures Num(k, n) in ws {
      var v :| v in vs && ParseNum(k, Show(v)) == Ok(n);
      assert ConvertValue(v, idType).value in ws;
    }
    assert ws == set n | n in ns :: Num(k, n);
  }

  /** A collection on a LINK field: every element must read as an identifier, and one of them must be the cell's. */
  lemma LinkInNumbers(field: Field, k: NumKind, vs: set<Value>, links: LinkTables, record: Row)
    requires LinksByNumber(field, k)
    ensures var c := Compare(field, Many(vs), In);
            && (Compiles(c, links) <==> forall v | v in vs :: !v.Null? && ParseNum(k, Show(v)).Ok?)
            && (Compiles(c, links) ==>
                  (KeepsRecord(c, links, record) <==>
                   exists v | v in vs :: ParseNum(k, Show(v)).Ok?
                                         && IsNumber(Cell(record, field.column.value), ParseNum(k, Show(v)).value)))
  {
    if forall v | v in vs :: !v.Null? && ParseNum(k, Show(v)).Ok? {
      var ns := NumbersOf(field, k, vs);
      InNumbers(field.column.value, k, ns, record);
    } else {
      var v :| v in vs && (v.Null? || ParseNum(k, Show(v)).Err?);
      assert ConvertValue(v, field.linkTo.value.idType).Err?;
    }
  }

  /** No field compares with a collection by equality or order, and a MULTILINK field not at all. */
  lemma CollectionRefused(field: Field, vs: set<Value>, op: CompareOperation, links: LinkTables)
    requires op.Equal? || op.Great? || op.Less? || field.kind.MultiLink?
    ensures !Compiles(Compare(field, Many(vs), op), links)
  {}

  /** On a column that is no link, or links to objects with other identifiers, the operand is compared as it is. */
  lemma PlainCompares(field: Field, v: Value, op: CompareOperation, links: LinkTables, record: Row)
    requires !field.kind.MultiLink? && field.column.Some?
    requires field.kind.Link? && field.linkTo.Some? ==> field.linkTo.value.idType.OtherId?
    ensures Compiles(Compare(field, One(v), op), links)
    ensures var cell := Cell(record, field.column.value);
            KeepsRecord(Compare(field, One(v), op), links, record) <==>
            match op
            case Equal | In => SameInSql(cell, v)
            case Great => !v.Null? && Before(v, cell)
            case Less => !cell.Null? && Before(cell, v)
            case LikeOp => !cell.Null? && Like.ILike(Show(cell), "%" + Show(v) + "%")
            case StartWith => !cell.Null? && Like.ILike(Show(cell), Show(v) + "%")
            case EndWith => !cell.Null? && Like.ILike(Show(cell), "%" + Show(v))
  {
    if !IsTextOperation(op) {
      PlainLeaf(field.column.value, v, op, record);
    }
  }

  // ---------------------------------------------------------------- MULTILINK

  /** The compiled condition keeps a row exactly when the value is in the object's forward link list. */
  ghost predicate MultilinkExact(field: Field, v: Value, links: LinkTables, id: int, row: Row) {
    var c := Compare(field, One(v), Equal);
    && Convert(c, links).Ok?
    && ParseNum(LongKind, Show(v)).Ok?
    && (Keeps(Convert(c, links).value, row) <==>
        ParseNum(LongKind, Show(v)).value in Forward(LinksOf(links, field.nxmTable), id))
  }

  /**
   * The stand-in `id = 0` for an empty owner list is wrong for an object with id 0 and for nothing else.
   */
  lemma MultilinkExactIff(field: Field, v: Value, links: LinkTables, id: int, row: Row)
    requires field.kind.MultiLink? && !v.Null? && ParseNum(LongKind, Show(v)).Ok?
    requires Cell(row, ID_COLUMN) == Num(LongKind, id)
    ensures MultilinkExact(field, v, links, id, row) <==>
            id != 0 || Reverse(LinksOf(links, field.nxmTable), ParseNum(LongKind, Show(v)).value) != []
  {
    var to := ParseNum(LongKind, Show(v)).value;
    var table := LinksOf(links, field.nxmTable);
    var owners := Reverse(table, to);
    ReverseIsConverse(table, id, to);
    MultilinkSql(field, v, links);
    if owners != [] {
      InOwners(owners, id, row);
    }
  }

  /** Every operation on a MULTILINK field is the membership test, of one value that prints a 64-bit number. */
  lemma MultilinkCompilesIff(field: Field, operand: Operand, op: CompareOperation, links: LinkTables)
    requires field.kind.MultiLink?
    ensures Compiles(Compare(field, operand, op), links) <==>
            operand.One? && !operand.v.Null? && ParseNum(LongKind, Show(operand.v)).Ok?
    ensures Convert(Compare(field, operand, op), links) == Convert(Compare(field, operand, Equal), links)
  {}

  lemma MultilinkSql(field: Field, v: Value, links: LinkTables)
    requires field.kind.MultiLink? && !v.Null? && ParseNum(LongKind, Show(v)).Ok?
    ensures var owners := Reverse(LinksOf(links, field.nxmTable), ParseNum(LongKind, Show(v)).value);
            Convert(Compare(field, One(v), Equal), links) ==
            Ok(if owners == [] then SqlCompare(ID_COLUMN, Eq, Num(IntegerKind, 0))
               else SqlIn(ID_COLUMN, set id | id in owners :: Num(LongKind, id)))
  {
    assert NormaliseLink(field, One(v)) == Ok(One(v));
  }

  lemma InOwners(owners: seq<int>, id: int, row: Row)
    requires Cell(row, ID_COLUMN) == Num(LongKind, id)
    ensures Keeps(SqlIn(ID_COLUMN, set o | o in owners :: Num(LongKind, o)), row) <==> id in owners
  {
    var ids := set o | o in owners :: Num(LongKind, o);
    if id in owners {
      assert Num(LongKind, id) in ids && CompareValues(Eq, Num(LongKind, id), Num(LongKind, id)).True?;
    }
  }
}
