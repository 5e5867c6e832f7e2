/** Queries on in-memory data sources: a lazy stream of filters, a stable sort, and paging. */
module InMemorySource {
  import opened Wrappers
  import opened Values
  import opened Meta
  import opened Conditions
  import opened QueryParams
  import opened ObjectOrder
  import opened StableSort

  /** A data source's objects are read through its extractor. */
  datatype ObjectExtractor<!T> = ObjectExtractor(getId: T -> string, getValue: (T, Field) -> Value)
  {
    function Fields(o: T): Field -> Value {
      (f: Field) => getValue(o, f)
    }
  }

  // ---------------------------------------------------------------- the stages

  /** Both filters on one object; the condition may raise. */
  function Accept<T>(ex: ObjectExtractor<T>, params: Params, o: T): Result<bool> {
    if params.ids.Some? && params.ids.value != {} && ex.getId(o) !in params.ids.value then Ok(false)
    else if params.condition.Some? then Check(ex.Fields(o), params.condition.value)
    else Ok(true)
  }

  /** Filters without a sort: objects are pulled one by one, and no more once the page is full. */
  function PullPage<T>(ex: ObjectExtractor<T>, params: Params, xs: seq<T>, skip: nat, take: nat): Result<seq<T>> {
    if take == 0 || xs == [] then Ok([])
    else
      var accepted :- Accept(ex, params, xs[0]);
      if !accepted then PullPage(ex, params, xs[1..], skip, take)
      else if skip > 0 then PullPage(ex, params, xs[1..], skip - 1, take)
      else
        var rest :- PullPage(ex, params, xs[1..], 0, take - 1);
        Ok([xs[0]] + rest)
  }

  /** Filters in front of a sort: every object is pulled. */
  function PullAll<T>(ex: ObjectExtractor<T>, params: Params, xs: seq<T>): Result<seq<T>> {
    if xs == [] then Ok([])
    else
      var accepted :- Accept(ex, params, xs[0]);
      var rest :- PullAll(ex, params, xs[1..]);
      Ok(if accepted then [xs[0]] + rest else rest)
  }

  /** The comparator of the stream sort; it raises on values of two classes. */
  function RaisingComparator<T>(ex: ObjectExtractor<T>, keys: seq<OrderField>): (T, T) -> Result<int> {
    (a: T, b: T) => CompareObjects(keys, Some(ex.Fields(a)), Some(ex.Fields(b)))
  }

  function Comparator<T>(ex: ObjectExtractor<T>, keys: seq<OrderField>): (T, T) -> int {
    Total(RaisingComparator(ex, keys))
  }

  function Skip<T>(xs: seq<T>, n: nat): seq<T> {
    if n <= |xs| then xs[n..] else []
  }

  function Take<T>(xs: seq<T>, n: nat): seq<T> {
    if n <= |xs| then xs[..n] else xs
  }

  /** The comparator raises on some pair of the objects. */
  predicate Uncomparable<T(==)>(ex: ObjectExtractor<T>, keys: seq<OrderField>, xs: seq<T>) {
    Incomparable(RaisingComparator(ex, keys), xs)
  }

  function GetObjects<T(==)>(ex: ObjectExtractor<T>, params: Params, all: seq<T>): Result<seq<T>> {
    var paged := params.limit < INT_MAX || params.offset > 0;
    if paged && (params.offset < 0 || params.limit < 0) then Err(IllegalArgument)
    else
      var skip := if paged then params.offset else 0;
      var take := if paged then params.limit else |all|;
      match params.orderFields
      case None => PullPage(ex, params, all, skip, take)
      case Some(keys) =>
        var filtered :- PullAll(ex, params, all);
        var sorted :- SortRaising(RaisingComparator(ex, keys), filtered);
        Ok(Take(Skip(sorted, skip), take))
  }

  // ---------------------------------------------------------------- what the stages compute

  function Filter<T>(ex: ObjectExtractor<T>, params: Params, xs: seq<T>): seq<T> {
    if xs == [] then []
    else (if Accept(ex, params, xs[0]) == Ok(true) then [xs[0]] else []) + Filter(ex, params, xs[1..])
  }

  predicate Checkable<T(==)>(ex: ObjectExtractor<T>, params: Params, xs: seq<T>) {
    forall x | x in xs :: Accept(ex, params, x).Ok?
  }

  /** When pulling on demand does not raise it gives the page of the accepted objects. */
  lemma {:induction false} PullPageIsPage<T>(ex: ObjectExtractor<T>, params: Params, xs: seq<T>, skip: nat, take: nat)
    ensures var page := PullPage(ex, params, xs, skip, take);
            page.Ok? ==> page.value == Take(Skip(Filter(ex, params, xs), skip), take)
  {
    var filtered := Filter(ex, params, xs);
    if xs != [] && take > 0 && Accept(ex, params, xs[0]).Ok? {
      var rest := Filter(ex, params, xs[1..]);
      if Accept(ex, params, xs[0]) == Ok(true) {
        if skip > 0 {
          PullPageIsPage(ex, params, xs[1..], skip - 1, take);
          assert Skip(filtered, skip) == Skip(rest, skip - 1);
        } else {
          PullPageIsPage(ex, params, xs[1..], 0, take - 1);
          assert Skip(filtered, 0) == filtered && Skip(rest, 0) == rest;
          assert Take(filtered, take) == [xs[0]] + Take(rest, take - 1);
        }
      } else {
        PullPageIsPage(ex, params, xs[1..], skip, take);
        assert filtered == rest;
      }
    }
  }

  /**
   * Exactly when the lazy stream raises: an object whose check raises is reached before the page is
   * full.
   */
  lemma {:induction false} PullPageRaisesIff<T>(ex: ObjectExtractor<T>, params: Params, xs: seq<T>, skip: nat,
                                                take: nat)
    ensures PullPage(ex, params, xs, skip, take).Err? <==>
            take > 0 && exists i | 0 <= i < |xs| :: Accept(ex, params, xs[i]).Err?
                                                    && |Filter(ex, params, xs[..i])| < skip + take
  {
    if xs != [] && take > 0 {
      forall i | 0 < i <= |xs|
        ensures Filter(ex, params, xs[..i]) ==
                (if Accept(ex, params, xs[0]) == Ok(true) then [xs[0]] else []) + Filter(ex, params, xs[1..][..i - 1])
      {
        assert xs[..i][1..] == xs[1..][..i - 1];
      }
      var accepted := Accept(ex, params, xs[0]);
      if accepted.Err? {
        assert Filter(ex, params, xs[..0]) == [];
      } else {
        var skip' := if accepted.value && skip > 0 then skip - 1 else skip;
        var take' := if accepted.value && skip == 0 then take - 1 else take;
        PullPageRaisesIff(ex, params, xs[1..], skip', take');
        RaisingIndex(ex, params, xs, skip, take, skip', take');
      }
    }
  }

  lemma RaisingIndex<T>(ex: ObjectExtractor<T>, params: Params, xs: seq<T>, skip: nat, take: nat, skip': nat,
                        take': nat)
    requires xs != [] && take > 0 && Accept(ex, params, xs[0]).Ok?
    requires skip + take == skip' + take' + if Accept(ex, params, xs[0]).value then 1 else 0
    requires take' == 0 ==> skip' == 0
    requires forall i | 0 < i <= |xs| ::
               Filter(ex, params, xs[..i]) ==
               (if Accept(ex, params, xs[0]) == Ok(true) then [xs[0]] else []) + Filter(ex, params, xs[1..][..i - 1])
    ensures (exists i | 0 <= i < |xs| ::
            Accept(ex, params, xs[i]).Err? && |Filter(ex, params, xs[..i])| < skip + take) <==>
            (take' > 0 && exists i | 0 <= i < |xs[1..]| :: Accept(ex, params, xs[1..][i]).Err?
                                                           && |Filter(ex, params, xs[1..][..i])| < skip' + take')
  {
    if i :| 0 <= i < |xs| && Accept(ex, params, xs[i]).Err? && |Filter(ex, params, xs[..i])| < skip + take {
      assert xs[1..][i - 1] == xs[i];
      assert |Filter(ex, params, xs[1..][..i - 1])| < skip' + take';
    }
    if i :| take' > 0 && 0 <= i < |xs[1..]| && Accept(ex, params, xs[1..][i]).Err?
            && |Filter(ex, params, xs[1..][..i])| < skip' + take' {
      assert xs[i + 1] == xs[1..][i];
      assert Filter(ex, params, xs[..i + 1]) ==
             (if Accept(ex, params, xs[0]) == Ok(true) then [xs[0]] else []) + Filter(ex, params, xs[1..][..i]);
    }
  }

  lemma {:induction false} PullAllIsFilter<T>(ex: ObjectExtractor<T>, params: Params, xs: seq<T>)
    ensures PullAll(ex, params, xs).Ok? <==> Checkable(ex, params, xs)
    ensures Checkable(ex, params, xs) ==> PullAll(ex, params, xs).value == Filter(ex, params, xs)
    ensures forall x :: x in Filter(ex, params, xs) <==> x in xs && Accept(ex, params, x) == Ok(true)
  {
    if xs != [] {
      assert xs == [xs[0]] + xs[1..];
      PullAllIsFilter(ex, params, xs[1..]);
    }
  }

  /** On the order fields the objects hold values Java can hold. */
  predicate AllJava<T(==)>(ex: ObjectExtractor<T>, keys: seq<OrderField>, xs: seq<T>) {
    forall x | x in xs :: JavaObject(keys, ex.Fields(x))
  }

  lemma ComparatorIsPartial<T(!new)>(ex: ObjectExtractor<T>, keys: seq<OrderField>, xs: seq<T>)
    requires AllJava(ex, keys, xs)
    ensures PartialPreorder(RaisingComparator(ex, keys), xs)
  {
    var cmp := RaisingComparator(ex, keys);
    forall x | x in xs ensures AtMost(cmp, x, x) {
      KeysSelf(keys, ex.Fields(x));
    }
    forall x, y | x in xs && y in xs && cmp(x, y).Ok? ensures cmp(y, x).Ok? && cmp(y, x).value == -cmp(x, y).value {
      KeysMirror(keys, ex.Fields(x), ex.Fields(y));
    }
    forall x, y, z | x in xs && y in xs && z in xs && AtMost(cmp, x, y) && AtMost(cmp, y, z) ensures AtMost(cmp, x, z) {
      KeysChain(keys, ex.Fields(x), ex.Fields(y), ex.Fields(z));
      KeysTransitive(keys, ex.Fields(x), ex.Fields(y), ex.Fields(z));
    }
  }

  /**
   * The stream sort raises exactly when some two of the objects cannot be compared; otherwise the
   * comparator is a total preorder and the sort is the stable one.
   */
  lemma ComparatorSorts<T(!new)>(ex: ObjectExtractor<T>, keys: seq<OrderField>, xs: seq<T>)
    requires AllJava(ex, keys, xs)
    ensures SortRaising(RaisingComparator(ex, keys), xs).Err? <==> Uncomparable(ex, keys, xs)
    ensures !Uncomparable(ex, keys, xs) ==>
              && TotalPreorder(Comparator(ex, keys), xs)
              && SortRaising(RaisingComparator(ex, keys), xs) == Ok(Sort(Comparator(ex, keys), xs))
  {
    ComparatorIsPartial(ex, keys, xs);
    SortRaisesIff(RaisingComparator(ex, keys), xs);
    if !Uncomparable(ex, keys, xs) {
      TotalOfPartial(RaisingComparator(ex, keys), xs);
    }
  }

  // ---------------------------------------------------------------- the pipeline

  /** Sizes and values a Java list can hold. */
  predicate JavaQuery<T(==)>(ex: ObjectExtractor<T>, params: Params, all: seq<T>) {
    && |all| <= INT_MAX && params.limit <= INT_MAX
    && (params.orderFields.Some? ==> AllJava(ex, params.orderFields.value, all))
  }

  /** Every object can be checked, and every two accepted ones compared. */
  predicate Answerable<T(==)>(ex: ObjectExtractor<T>, params: Params, all: seq<T>) {
    && Checkable(ex, params, all)
    && (params.orderFields.Some? ==> !Uncomparable(ex, params.orderFields.value, Filter(ex, params, all)))
  }

  /** The objects a query selects, before paging: filtered, and when asked stably sorted. */
  ghost predicate IsSelection<T(!new)>(ex: ObjectExtractor<T>, params: Params, all: seq<T>, full: seq<T>) {
    match params.orderFields
    case None => full == Filter(ex, params, all)
    case Some(keys) => IsStableSortOf(Comparator(ex, keys), Filter(ex, params, all), full)
  }

  function Selection<T>(ex: ObjectExtractor<T>, params: Params, all: seq<T>): seq<T> {
    var filtered := Filter(ex, params, all);
    if params.orderFields.None? then filtered else Sort(Comparator(ex, params.orderFields.value), filtered)
  }

  lemma FilteredSorts<T(!new)>(ex: ObjectExtractor<T>, params: Params, all: seq<T>)
    requires JavaQuery(ex, params, all) && params.orderFields.Some?
    ensures var keys, filtered := params.orderFields.value, Filter(ex, params, all);
            && (SortRaising(RaisingComparator(ex, keys), filtered).Err? <==> Uncomparable(ex, keys, filtered))
            && (!Uncomparable(ex, keys, filtered) ==>
                  && TotalPreorder(Comparator(ex, keys), filtered)
                  && SortRaising(RaisingComparator(ex, keys), filtered) == Ok(Sort(Comparator(ex, keys), filtered)))
  {
    PullAllIsFilter(ex, params, all);
    ComparatorSorts(ex, params.orderFields.value, Filter(ex, params, all));
  }

  lemma SelectionIsUnique<T(!new)>(ex: ObjectExtractor<T>, params: Params, all: seq<T>, full: seq<T>)
    requires JavaQuery(ex, params, all)
    requires params.orderFields.Some? ==> !Uncomparable(ex, params.orderFields.value, Filter(ex, params, all))
    ensures IsSelection(ex, params, all, full) <==> full == Selection(ex, params, all)
  {
    if params.orderFields.Some? {
      FilteredSorts(ex, params, all);
      OnlyStableSort(Comparator(ex, params.orderFields.value), Filter(ex, params, all), full);
    }
  }

  lemma {:induction false} FilterShrinks<T>(ex: ObjectExtractor<T>, params: Params, xs: seq<T>)
    ensures |Filter(ex, params, xs)| <= |xs|
  {
    if xs != [] {
      FilterShrinks(ex, params, xs[1..]);
    }
  }

  lemma SelectionShrinks<T>(ex: ObjectExtractor<T>, params: Params, all: seq<T>)
    ensures |Selection(ex, params, all)| <= |all|
  {
    FilterShrinks(ex, params, all);
    if params.orderFields.Some? {
      SortElements(Comparator(ex, params.orderFields.value), Filter(ex, params, all));
      assert |multiset(Selection(ex, params, all))| == |multiset(Filter(ex, params, all))|;
    }
  }

  /** Paging as the code guards it: skipped altogether when neither bound restricts anything. */
  function PageOf<T>(params: Params, full: seq<T>): Result<seq<T>> {
    if params.limit == INT_MAX && params.offset <= 0 then Ok(full)
    else if params.limit < 0 || params.offset < 0 then Err(IllegalArgument)
    else Ok(Take(Skip(full, params.offset), params.limit))
  }

  lemma WholePage<T>(full: seq<T>, take: nat)
    requires |full| <= take
    ensures Take(full, take) == full && Take(Skip(full, 0), take) == full
  {
    assert Skip(full, 0) == full;
  }

  lemma GetObjectsPagesSelection<T(!new)>(ex: ObjectExtractor<T>, params: Params, all: seq<T>)
    requires JavaQuery(ex, params, all) && GetObjects(ex, params, all).Ok?
    ensures GetObjects(ex, params, all) == PageOf(params, Selection(ex, params, all))
  {
    SelectionShrinks(ex, params, all);
    WholePage(Selection(ex, params, all), |all|);
    if params.orderFields.Some? {
      PullAllIsFilter(ex, params, all);
      FilteredSorts(ex, params, all);
    } else if params.limit == INT_MAX && params.offset <= 0 {
      PullPageIsPage(ex, params, all, 0, |all|);
    } else {
      PullPageIsPage(ex, params, all, params.offset, params.limit);
    }
  }

  /**
   * Whenever the pipeline answers, the answer is take(limit, drop(offset, stable sort of the accepted
   * objects)), whichever stable sort is used.
   */
  lemma PipelineIsPageOfSelection<T(!new)>(ex: ObjectExtractor<T>, params: Params, all: seq<T>, full: seq<T>)
    requires JavaQuery(ex, params, all) && GetObjects(ex, params, all).Ok?
    requires IsSelection(ex, params, all, full)
    ensures GetObjects(ex, params, all) == PageOf(params, full)
  {
    PullAllIsFilter(ex, params, all);
    if params.orderFields.Some? {
      FilteredSorts(ex, params, all);
    }
    SelectionIsUnique(ex, params, all, full);
    GetObjectsPagesSelection(ex, params, all);
  }

  // ---------------------------------------------------------------- the answer, object by object

  lemma {:induction false} FilterPrecedes<T>(ex: ObjectExtractor<T>, params: Params, xs: seq<T>, x: T, y: T)
    requires Precedes(Filter(ex, params, xs), x, y)
    ensures Precedes(xs, x, y)
  {
    var rest := Filter(ex, params, xs[1..]);
    assert xs == [xs[0]] + xs[1..];
    PrecedesCons(xs[0], xs[1..], x, y);
    PullAllIsFilter(ex, params, xs[1..]);
    if Accept(ex, params, xs[0]) == Ok(true) {
      PrecedesCons(xs[0], rest, x, y);
    } else {
      assert Filter(ex, params, xs) == rest;
    }
    if Precedes(rest, x, y) {
      FilterPrecedes(ex, params, xs[1..], x, y);
    }
  }

  lemma SelectionMembers<T>(ex: ObjectExtractor<T>, params: Params, all: seq<T>)
    ensures forall x :: x in Selection(ex, params, all) <==> x in all && Accept(ex, params, x) == Ok(true)
  {
    PullAllIsFilter(ex, params, all);
    if params.orderFields.Some? {
      SortElements(Comparator(ex, params.orderFields.value), Filter(ex, params, all));
    }
  }

  /** Two objects of the selection: in order, and in the order of the source where the keys do not tell them apart. */
  lemma SelectionInOrder<T(!new)>(ex: ObjectExtractor<T>, params: Params, all: seq<T>, i: nat, j: nat)
    requires JavaQuery(ex, params, all) && params.orderFields.Some?
    requires !Uncomparable(ex, params.orderFields.value, Filter(ex, params, all))
    requires i < j < |Selection(ex, params, all)|
    ensures var keys, full := params.orderFields.value, Selection(ex, params, all);
            && InOrder(keys, ex.Fields(full[i]), ex.Fields(full[j]))
            && (SameValues(keys, ex.Fields(full[i]), ex.Fields(full[j])) ==> Precedes(all, full[i], full[j]))
  {
    var keys, filtered, full := params.orderFields.value, Filter(ex, params, all), Selection(ex, params, all);
    FilteredSorts(ex, params, all);
    SortIsStable(Comparator(ex, keys), filtered);
    SortElements(Comparator(ex, keys), filtered);
    PullAllIsFilter(ex, params, all);
    var x, y := full[i], full[j];
    assert x in full && y in full;
    KeysSelf(keys, ex.Fields(x));
    assert RaisingComparator(ex, keys)(x, y).Ok?;
    assert Comparator(ex, keys)(x, y) <= 0;
    KeysOrder(keys, ex.Fields(x), ex.Fields(y));
    if SameValues(keys, ex.Fields(x), ex.Fields(y)) {
      StableSortPrecedes(Comparator(ex, keys), filtered, full, i, j);
      FilterPrecedes(ex, params, all, x, y);
    }
  }

  lemma UnsortedInOrder<T(!new)>(ex: ObjectExtractor<T>, params: Params, all: seq<T>, i: nat, j: nat)
    requires params.orderFields.None? && i < j < |Selection(ex, params, all)|
    ensures var full := Selection(ex, params, all); Precedes(all, full[i], full[j])
  {
    var full := Filter(ex, params, all);
    assert Precedes(full, full[i], full[j]);
    FilterPrecedes(ex, params, all, full[i], full[j]);
  }

  /** The order fields of a query; none when it asks for no order. */
  function Keys(params: Params): seq<OrderField> {
    if params.orderFields.Some? then params.orderFields.value else []
  }

  /** The second of two objects stands where the order fields and the source allow it behind the first. */
  predicate StandsBehind<T(==)>(ex: ObjectExtractor<T>, params: Params, all: seq<T>, x: T, y: T) {
    && InOrder(Keys(params), ex.Fields(x), ex.Fields(y))
    && (SameValues(Keys(params), ex.Fields(x), ex.Fields(y)) ==> Precedes(all, x, y))
  }

  function PageStart(params: Params): nat {
    if params.offset <= 0 then 0 else params.offset
  }

  lemma PageAt<T>(params: Params, full: seq<T>, i: nat)
    requires |full| <= INT_MAX && params.limit <= INT_MAX && PageOf(params, full).Ok?
    ensures var page := PageOf(params, full).value;
            && (i < |page| <==> i < params.limit && PageStart(params) + i < |full|)
            && (i < |page| && PageStart(params) + i < |full| ==> page[i] == full[PageStart(params) + i])
  {}

  /** The objects of an answer are those of the selection, from the offset on. */
  lemma AnswerAt<T(!new)>(ex: ObjectExtractor<T>, params: Params, all: seq<T>, answer: seq<T>, i: nat)
    requires JavaQuery(ex, params, all) && GetObjects(ex, params, all) == Ok(answer)
    ensures var full := Selection(ex, params, all);
            && (i < |answer| <==> i < params.limit && PageStart(params) + i < |full|)
            && (i < |answer| && PageStart(params) + i < |full| ==> answer[i] == full[PageStart(params) + i])
  {
    GetObjectsPagesSelection(ex, params, all);
    SelectionShrinks(ex, params, all);
    PageAt(params, Selection(ex, params, all), i);
  }

  lemma PlaceInSelection<T(!new)>(ex: ObjectExtractor<T>, params: Params, all: seq<T>, answer: seq<T>, i: nat)
    returns (k: nat)
    requires JavaQuery(ex, params, all) && GetObjects(ex, params, all) == Ok(answer) && i < |answer|
    ensures k == PageStart(params) + i && k < |Selection(ex, params, all)| && Selection(ex, params, all)[k] == answer[i]
  {
    AnswerAt(ex, params, all, answer, i);
    k := PageStart(params) + i;
  }

  lemma SelectionStands<T(!new)>(ex: ObjectExtractor<T>, params: Params, all: seq<T>, i: nat, j: nat)
    requires JavaQuery(ex, params, all) && GetObjects(ex, params, all).Ok?
    requires i < j < |Selection(ex, params, all)|
    ensures var full := Selection(ex, params, all); StandsBehind(ex, params, all, full[i], full[j])
  {
    if params.orderFields.Some? {
      PullAllIsFilter(ex, params, all);
      FilteredSorts(ex, params, all);
      SelectionInOrder(ex, params, all, i, j);
    } else {
      UnsortedInOrder(ex, params, all, i, j);
    }
  }

  /** The objects of an answer are objects of the source that pass both filters. */
  lemma AnswerAccepted<T(!new)>(ex: ObjectExtractor<T>, params: Params, all: seq<T>, answer: seq<T>, x: T)
    requires JavaQuery(ex, params, all) && GetObjects(ex, params, all) == Ok(answer) && x in answer
    ensures x in all && Accept(ex, params, x) == Ok(true)
  {
    var i :| 0 <= i < |answer| && answer[i] == x;
    var k := PlaceInSelection(ex, params, all, answer, i);
    SelectionMembers(ex, params, all);
  }

  /**
   * Every two objects of an answer stand as the order fields ask: on each key up to which they hold the
   * same values nulls come first and values ascend, the other way round under DESC. Objects the keys do
   * not tell apart, and all objects when there is no order, stand as in the source.
   */
  lemma AnswerInOrder<T(!new)>(ex: ObjectExtractor<T>, params: Params, all: seq<T>, answer: seq<T>, i: nat, j: nat)
    requires JavaQuery(ex, params, all) && GetObjects(ex, params, all) == Ok(answer) && i < j < |answer|
    ensures StandsBehind(ex, params, all, answer[i], answer[j])
  {
    var k := PlaceInSelection(ex, params, all, answer, i);
    var m := PlaceInSelection(ex, params, all, answer, j);
    SelectionStands(ex, params, all, k, m);
  }

  /** With one key: nulls first and numbers ascending, under DESC numbers descending and nulls last. */
  lemma OneKeyAnswer<T(!new)>(ex: ObjectExtractor<T>, params: Params, all: seq<T>, answer: seq<T>, key: OrderField,
                              i: nat, j: nat)
    requires JavaQuery(ex, params, all) && GetObjects(ex, params, all) == Ok(answer)
    requires params.orderFields == Some([key]) && i < j < |answer|
    ensures var u, v := ex.getValue(answer[i], key.field), ex.getValue(answer[j], key.field);
            && (key.order.Asc? && v.Null? ==> u.Null?)
            && (key.order.Desc? && u.Null? ==> v.Null?)
            && (u.Num? && v.Num? ==> if key.order.Asc? then u.n <= v.n else u.n >= v.n)
  {
    AnswerInOrder(ex, params, all, answer, i, j);
    assert SameValues([key][..0], ex.Fields(answer[i]), ex.Fields(answer[j]));
    assert [key][0] == key;
  }

  lemma {:induction false} FilterSame<T>(ex: ObjectExtractor<T>, p: Params, q: Params, xs: seq<T>)
    requires p.ids == q.ids && p.condition == q.condition
    ensures Filter(ex, p, xs) == Filter(ex, q, xs)
  {
    if xs != [] {
      FilterSame(ex, p, q, xs[1..]);
    }
  }

  /** Paging cuts the unpaged answer: `limit` objects from `offset` on, or as many as there are. */
  lemma PageIsSlice<T(!new)>(ex: ObjectExtractor<T>, params: Params, all: seq<T>, page: seq<T>, full: seq<T>, i: nat)
    requires JavaQuery(ex, params, all) && GetObjects(ex, params, all) == Ok(page)
    requires GetObjects(ex, params.(limit := INT_MAX, offset := 0), all) == Ok(full)
    ensures i < |page| <==> i < params.limit && PageStart(params) + i < |full|
    ensures i < |page| && PageStart(params) + i < |full| ==> page[i] == full[PageStart(params) + i]
  {
    var whole := params.(limit := INT_MAX, offset := 0);
    FilterSame(ex, params, whole, all);
    AnswerAt(ex, params, all, page, i);
    GetObjectsPagesSelection(ex, whole, all);
  }

  // ---------------------------------------------------------------- when the pipeline raises

  /** An object whose check raises stands before the point where a lazy stream stops pulling. */
  predicate RaisesBefore<T>(ex: ObjectExtractor<T>, params: Params, all: seq<T>, end: nat) {
    exists i | 0 <= i < |all| :: Accept(ex, params, all[i]).Err? && |Filter(ex, params, all[..i])| < end
  }

  /** Without a sort and without paging every object is pulled; with paging none after the page is full. */
  predicate RaisesUnsorted<T(==)>(ex: ObjectExtractor<T>, params: Params, all: seq<T>) {
    if params.limit == INT_MAX && params.offset <= 0 then !Checkable(ex, params, all)
    else
      var end := params.offset + params.limit;
      params.limit > 0 && end >= 0 && RaisesBefore(ex, params, all, end)
  }

  /**
   * Exactly when the pipeline raises: a negative bound while paging is on; without a sort, an object
   * whose check raises before the page is full; with a sort, any such object or an incomparable pair.
   */
  lemma GetObjectsRaisesIff<T(!new)>(ex: ObjectExtractor<T>, params: Params, all: seq<T>)
    requires JavaQuery(ex, params, all)
    ensures GetObjects(ex, params, all).Err? <==>
            || ((params.limit < 0 || params.offset < 0) && !(params.limit == INT_MAX && params.offset <= 0))
            || (params.orderFields.Some? && !Answerable(ex, params, all))
            || (params.orderFields.None? && RaisesUnsorted(ex, params, all))
  {
    if params.orderFields.Some? {
      PullAllIsFilter(ex, params, all);
      FilteredSorts(ex, params, all);
    } else if params.limit == INT_MAX && params.offset <= 0 {
      PullPageRaisesIff(ex, params, all, 0, |all|);
      RaisesBeforeEnd(ex, params, all, |all|);
    } else if params.limit >= 0 && params.offset >= 0 {
      PullPageRaisesIff(ex, params, all, params.offset, params.limit);
    }
  }

  lemma RaisesBeforeEnd<T>(ex: ObjectExtractor<T>, params: Params, all: seq<T>, end: nat)
    requires |all| <= end
    ensures RaisesBefore(ex, params, all, end) <==> !Checkable(ex, params, all)
  {
    if x :| x in all && Accept(ex, params, x).Err? {
      var i :| 0 <= i < |all| && all[i] == x;
      FilterShrinks(ex, params, all[..i]);
    }
  }

  // ---------------------------------------------------------------- pages

  /** The offset of a page: the pages in front of it. */
  function Start(size: nat, page: nat): nat {
    if page == 0 then 0 else Start(size, page - 1) + size
  }

  lemma {:induction false} StartIsProduct(size: nat, page: nat)
    ensures Start(size, page) == page * size
  {
    if page > 0 {
      StartIsProduct(size, page - 1);
    }
  }

  function PageParams(params: Params, size: nat, page: nat): Params {
    params.(limit := size, offset := Start(size, page))
  }

  /** The first `n` pages of the given size, one after the other. */
  function Pages<T(==)>(ex: ObjectExtractor<T>, params: Params, all: seq<T>, size: nat, n: nat): Result<seq<T>> {
    if n == 0 then Ok([])
    else
      var before :- Pages(ex, params, all, size, n - 1);
      var last :- GetObjects(ex, PageParams(params, size, n - 1), all);
      Ok(before + last)
  }

  lemma OnePage<T(!new)>(ex: ObjectExtractor<T>, params: Params, all: seq<T>, size: nat, page: nat)
    requires JavaQuery(ex, params, all) && Answerable(ex, params, all) && 0 < size <= INT_MAX
    ensures GetObjects(ex, PageParams(params, size, page), all) ==
            Ok(Take(Skip(Selection(ex, params, all), Start(size, page)), size))
  {
    var p := PageParams(params, size, page);
    FilterSame(ex, p, params, all);
    forall x | x in all ensures Accept(ex, p, x).Ok? { assert Accept(ex, params, x).Ok?; }
    GetObjectsRaisesIff(ex, p, all);
    GetObjectsPagesSelection(ex, p, all);
    SelectionShrinks(ex, p, all);
    WholePage(Selection(ex, p, all), INT_MAX);
  }

  lemma NextPage<T>(full: seq<T>, start: nat, size: nat)
    ensures Take(full, start) + Take(Skip(full, start), size) == Take(full, start + size)
  {}

  lemma {:induction false} PagesArePrefix<T(!new)>(ex: ObjectExtractor<T>, params: Params, all: seq<T>, size: nat,
                                                   n: nat)
    requires JavaQuery(ex, params, all) && Answerable(ex, params, all) && 0 < size <= INT_MAX
    ensures Pages(ex, params, all, size, n) == Ok(Take(Selection(ex, params, all), Start(size, n)))
  {
    if n > 0 {
      PagesArePrefix(ex, params, all, size, n - 1);
      OnePage(ex, params, all, size, n - 1);
      PagesNext(ex, params, all, size, n, Selection(ex, params, all));
    }
  }

  lemma PagesNext<T>(ex: ObjectExtractor<T>, params: Params, all: seq<T>, size: nat, n: nat, full: seq<T>)
    requires n > 0 && Pages(ex, params, all, size, n - 1) == Ok(Take(full, Start(size, n - 1)))
    requires GetObjects(ex, PageParams(params, size, n - 1), all) == Ok(Take(Skip(full, Start(size, n - 1)), size))
    ensures Pages(ex, params, all, size, n) == Ok(Take(full, Start(size, n)))
  {
    NextPage(full, Start(size, n - 1), size);
  }

  lemma AnswerableIgnoresPaging<T(!new)>(ex: ObjectExtractor<T>, params: Params, size: nat, page: nat, all: seq<T>)
    ensures var p := PageParams(params, size, page);
            && (Checkable(ex, p, all) <==> Checkable(ex, params, all))
            && (Answerable(ex, p, all) <==> Answerable(ex, params, all))
  {
    var p := PageParams(params, size, page);
    FilterSame(ex, p, params, all);
    forall x ensures Accept(ex, p, x) == Accept(ex, params, x) {}
  }

  lemma ReachingEndRaises<T(!new)>(ex: ObjectExtractor<T>, params: Params, all: seq<T>)
    requires JavaQuery(ex, params, all) && !Answerable(ex, params, all)
    requires params.limit > 0 && params.offset >= 0 && params.offset + params.limit >= |all|
    ensures GetObjects(ex, params, all).Err?
  {
    GetObjectsRaisesIff(ex, params, all);
    RaisesBeforeEnd(ex, params, all, params.offset + params.limit);
  }

  /** The page that reaches the end of the source raises when any page of it could. */
  lemma LastPageRaises<T(!new)>(ex: ObjectExtractor<T>, params: Params, all: seq<T>, size: nat, n: nat)
    requires JavaQuery(ex, params, all) && !Answerable(ex, params, all)
    requires 0 < size <= INT_MAX && n > 0 && Start(size, n) >= |all|
    ensures GetObjects(ex, PageParams(params, size, n - 1), all).Err?
  {
    var p := PageParams(params, size, n - 1);
    AnswerableIgnoresPaging(ex, params, size, n - 1, all);
    ReachingEndRaises(ex, p, all);
  }

  /**
   * Consecutive pages of any size that reach the end answer exactly when the unpaged query does, and
   * reproduce its answer: nothing lost, nothing repeated.
   */
  lemma PagesCoverSelection<T(!new)>(ex: ObjectExtractor<T>, params: Params, all: seq<T>, size: nat, n: nat)
    requires JavaQuery(ex, params, all)
    requires params.limit == INT_MAX && params.offset == 0
    requires 0 < size <= INT_MAX && n > 0 && n * size >= |all|
    ensures Pages(ex, params, all, size, n).Ok? <==> GetObjects(ex, params, all).Ok?
    ensures GetObjects(ex, params, all).Ok? ==> Pages(ex, params, all, size, n) == GetObjects(ex, params, all)
  {
    GetObjectsRaisesIff(ex, params, all);
    StartIsProduct(size, n);
    if Answerable(ex, params, all) {
      SelectionShrinks(ex, params, all);
      WholePage(Selection(ex, params, all), Start(size, n));
      GetObjectsPagesSelection(ex, params, all);
      PagesArePrefix(ex, params, all, size, n);
    } else {
      LastPageRaises(ex, params, all, size, n);
    }
  }
}
