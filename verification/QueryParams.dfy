/** The parameters of an object query and the builder that accumulates them. */
module QueryParams {
  import opened Wrappers
  import opened Values
  import opened Meta
  import opened Conditions

  datatype SortOrder = Asc | Desc

  datatype OrderField = OrderField(field: Field, order: SortOrder)

  datatype Params = Params(
    metaClass: string,
    orderFields: Option<seq<OrderField>>,
    condition: Option<Condition>,
    limit: int,
    offset: int,
    ids: Option<set<string>>)

  /** `LinkedHashMap.put`: a known key keeps its place and takes the new value. */
  function PutOrder(order: seq<OrderField>, field: Field, o: SortOrder): seq<OrderField> {
    if order == [] then [OrderField(field, o)]
    else if order[0].field == field then [OrderField(field, o)] + order[1..]
    else [order[0]] + PutOrder(order[1..], field, o)
  }

  predicate DistinctFields(order: seq<OrderField>) {
    forall i, j | 0 <= i < j < |order| :: order[i].field != order[j].field
  }

  /** A sort key is never listed twice, earlier keys keep their rank, and only the one put changes. */
  lemma {:induction false} PutOrderKeepsRanks(order: seq<OrderField>, field: Field, o: SortOrder)
    requires DistinctFields(order)
    ensures DistinctFields(PutOrder(order, field, o))
    ensures |order| <= |PutOrder(order, field, o)| <= |order| + 1
    ensures forall i | 0 <= i < |order| ::
              PutOrder(order, field, o)[i] == if order[i].field == field then OrderField(field, o) else order[i]
    ensures |PutOrder(order, field, o)| == |order| + 1 <==> forall i | 0 <= i < |order| :: order[i].field != field
    ensures |PutOrder(order, field, o)| == |order| + 1 ==> PutOrder(order, field, o)[|order|] == OrderField(field, o)
  {
    if order != [] && order[0].field != field {
      PutOrderKeepsRanks(order[1..], field, o);
    }
  }

  class ParamsBuilder {
    const metaClass: string
    var orderFields: Option<seq<OrderField>>
    var condition: Option<Condition>
    var ids: Option<set<string>>
    var limit: int
    var offset: int

    /** `build()`: the parameters accumulated so far. */
    function Build(): Params
      reads this
    {
      Params(metaClass, orderFields, condition, limit, offset, ids)
    }

    constructor (metaClass: string)
      ensures Build() == Params(metaClass, None, None, INT_MAX, 0, None)
    {
      this.metaClass := metaClass;
      orderFields, condition, ids := None, None, None;
      limit, offset := INT_MAX, 0;
    }

    method SetCondition(c: Option<Condition>)
      modifies this`condition
      ensures Build() == old(Build()).(condition := c)
    {
      condition := c;
    }

    method SetLimit(n: int)
      modifies this
      ensures Build() == old(Build()).(limit := n)
    {
      limit := n;
    }

    method SetOffset(n: int)
      modifies this
      ensures Build() == old(Build()).(offset := n)
    {
      offset := n;
    }

    method AddIds(more: set<string>)
      modifies this`ids
      ensures Build() == old(Build()).(ids := Some((if old(ids).Some? then old(ids).value else {}) + more))
    {
      if ids.None? {
        ids := Some({});
      }
      ids := Some(ids.value + more);
    }

    method AddOrder(field: Field, order: SortOrder)
      modifies this
      ensures Build() == old(Build()).(
                           orderFields := Some(PutOrder(if old(orderFields).Some? then old(orderFields).value else [],
                                                        field, order)))
    {
      if orderFields.None? {
        orderFields := Some([]);
      }
      orderFields := Some(PutOrder(orderFields.value, field, order));
    }
  }
}
