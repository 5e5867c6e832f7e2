/** The condition language and its in-memory interpreter. */
module Conditions {
  import opened Wrappers
  import opened Values
  import opened Meta
  import Like

  datatype CompareOperation = Equal | Less | Great | In | LikeOp | StartWith | EndWith

  /** The right-hand side of a comparison: a single object, or a Java collection of them. */
  datatype Operand = One(v: Value) | Many(vs: set<Value>)

  datatype Condition =
    | And(first: Condition, second: Condition)
    | Or(first: Condition, second: Condition)
    | Compare(field: Field, operand: Operand, op: CompareOperation)

  predicate IsTextOperation(op: CompareOperation) {
    op.LikeOp? || op.StartWith? || op.EndWith?
  }

  function TextOpOf(op: CompareOperation): Like.TextOp
    requires IsTextOperation(op)
  {
    match op
    case StartWith => Like.Prefix
    case EndWith => Like.Suffix
    case _ => Like.Anywhere
  }

  /**
   * `((Comparable) n1).compareTo(n2)`: Long and Integer answer -1, 0 or 1, Short answers the
   * difference, and two different boxes raise ClassCastException.
   */
  function CompareNumbers(a: Value, b: Value): Result<int>
    requires a.Num? && b.Num?
  {
    if a.kind != b.kind then Err(ClassCast)
    else if a.kind.ShortKind? then Ok(a.n - b.n)
    else Ok(if a.n < b.n then -1 else if a.n == b.n then 0 else 1)
  }

  function CheckCompare(value: Value, operand: Value, op: CompareOperation): Result<bool> {
    match op
    case Equal => Ok(value == operand)
    case LikeOp | StartWith | EndWith =>
      if operand.Null? then Err(NullPointer)
      else Ok(!value.Null? && Like.Holds(TextOpOf(op), Show(value), Show(operand)))
    case Great | Less =>
      if value.Null? then Ok(false)
      else if operand.Null? then Err(NullPointer)
      else if value.Num? && operand.Num? then
        var sign :- CompareNumbers(value, operand);
        Ok(sign == 1)
      else Err(NotSupported)
    case In => Err(NotSupported)
  }

  /**
   * A Java collection as operand: it equals no value, and a null value is neither in order with it nor
   * like it. What its printed form is like is not modelled and stands as a failure.
   */
  function CheckCollection(value: Value, op: CompareOperation): Result<bool> {
    if op.Equal? || (value.Null? && !op.In?) then Ok(false) else Err(NotSupported)
  }

  /** `condition.check(checker)`; the second operand is evaluated only when Java evaluates it. */
  function Check(get: Field -> Value, c: Condition): Result<bool> {
    match c
    case And(first, second) =>
      var b :- Check(get, first);
      if b then Check(get, second) else Ok(false)
    case Or(first, second) =>
      var b :- Check(get, first);
      if b then Ok(true) else Check(get, second)
    case Compare(field, One(operand), op) => CheckCompare(get(field), operand, op)
    case Compare(field, Many(_), op) => CheckCollection(get(field), op)
  }

  /** AND and OR answer as Java's operators do: an operand that raises does not show behind one that decides. */
  lemma ShortCircuits(get: Field -> Value, a: Condition, b: Condition)
    ensures Check(get, And(a, b)) == Ok(true) <==> Check(get, a) == Ok(true) && Check(get, b) == Ok(true)
    ensures Check(get, And(a, b)) == Ok(false) <==>
            Check(get, a) == Ok(false) || (Check(get, a) == Ok(true) && Check(get, b) == Ok(false))
    ensures Check(get, Or(a, b)) == Ok(true) <==>
            Check(get, a) == Ok(true) || (Check(get, a) == Ok(false) && Check(get, b) == Ok(true))
    ensures Check(get, Or(a, b)) == Ok(false) <==> Check(get, a) == Ok(false) && Check(get, b) == Ok(false)
  {}

  /** In memory a collection matches nothing; IN raises, and so does an order unless the value is null. */
  lemma CollectionNeverMatches(get: Field -> Value, f: Field, vs: set<Value>, op: CompareOperation)
    ensures var r := Check(get, Compare(f, Many(vs), op));
            && r != Ok(true)
            && (op.Equal? ==> r == Ok(false))
            && (op.In? ==> r == Err(NotSupported))
            && (op.Great? || op.Less? ==> r == if get(f) == Null then Ok(false) else Err(NotSupported))
  {}
}
