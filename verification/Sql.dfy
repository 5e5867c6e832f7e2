/** The SQL conditions the converter produces, under three-valued logic. */
module Sql {
  import opened Wrappers
  import opened Values
  import opened Meta
  import Like

  datatype Comparison = Eq | Gt | Lt

  datatype Sql =
    | SqlAnd(left: Sql, right: Sql)
    | SqlOr(left: Sql, right: Sql)
    | SqlCompare(column: string, cmp: Comparison, operand: Value)
    | SqlIn(column: string, vs: set<Value>)
    | SqlLike(column: string, pattern: string)

  datatype Truth = True | False | Unknown

  function OfBool(b: bool): Truth {
    if b then True else False
  }

  function AndTruth(a: Truth, b: Truth): Truth {
    if a.False? || b.False? then False
    else if a.Unknown? || b.Unknown? then Unknown
    else True
  }

  function OrTruth(a: Truth, b: Truth): Truth {
    if a.True? || b.True? then True
    else if a.Unknown? || b.Unknown? then Unknown
    else False
  }

  /** Numbers compare by value whatever their width; NULL compares unknown. */
  function CompareValues(cmp: Comparison, a: Value, b: Value): Truth {
    match (a, b)
    case (Num(_, m), Num(_, n)) =>
      OfBool(match cmp case Eq => m == n case Gt => m > n case Lt => m < n)
    case (Text(s), Text(t)) =>
      OfBool(match cmp case Eq => s == t case Gt => TextBefore(t, s) case Lt => TextBefore(s, t))
    case (Bool(p), Bool(q)) =>
      OfBool(match cmp case Eq => p == q case Gt => p && !q case Lt => !p && q)
    case _ => Unknown
  }

  function Eval(sql: Sql, row: Row): Truth {
    match sql
    case SqlAnd(l, r) => AndTruth(Eval(l, row), Eval(r, row))
    case SqlOr(l, r) => OrTruth(Eval(l, row), Eval(r, row))
    case SqlCompare(column, cmp, operand) => CompareValues(cmp, Cell(row, column), operand)
    case SqlIn(column, vs) =>
      if exists v | v in vs :: CompareValues(Eq, Cell(row, column), v).True? then True
      else if exists v | v in vs :: CompareValues(Eq, Cell(row, column), v).Unknown? then Unknown
      else False
    case SqlLike(column, pattern) =>
      var value := Cell(row, column);
      if value.Null? then Unknown else OfBool(Like.ILike(Show(value), pattern))
  }

  /** A WHERE clause keeps the rows on which it is true. */
  predicate Keeps(sql: Sql, row: Row) {
    Eval(sql, row).True?
  }

  /** The database runs the condition: no LIKE pattern ends in a dangling escape. */
  predicate Runs(sql: Sql) {
    match sql
    case SqlAnd(l, r) => Runs(l) && Runs(r)
    case SqlOr(l, r) => Runs(l) && Runs(r)
    case SqlLike(_, pattern) => Like.WellFormed(pattern)
    case _ => true
  }
}
