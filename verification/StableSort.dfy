/** `Stream.sorted(comparator)` on an ordered stream: the stable sort, and why it is the only one. */
module StableSort {
  import opened Wrappers

  /** A comparator the sort may use: on the given elements it is a total preorder. */
  ghost predicate TotalPreorder<T(!new)>(cmp: (T, T) -> int, xs: seq<T>) {
    && (forall x, y | x in xs && y in xs :: cmp(x, y) <= 0 || cmp(y, x) <= 0)
    && (forall x, y | x in xs && y in xs :: cmp(x, y) == 0 <==> cmp(x, y) <= 0 && cmp(y, x) <= 0)
    && (forall x, y, z | x in xs && y in xs && z in xs :: cmp(x, y) <= 0 && cmp(y, z) <= 0 ==> cmp(x, z) <= 0)
  }

  ghost predicate Sorted<T>(cmp: (T, T) -> int, xs: seq<T>) {
    forall i, j | 0 <= i < j < |xs| :: cmp(xs[i], xs[j]) <= 0
  }

  /** The elements that compare equal to `x`, in order. */
  function Ties<T>(cmp: (T, T) -> int, xs: seq<T>, x: T): seq<T> {
    if xs == [] then []
    else (if cmp(x, xs[0]) == 0 then [xs[0]] else []) + Ties(cmp, xs[1..], x)
  }

  /** `ys` is sorted, has the elements of `xs`, and keeps every group of ties in its original order. */
  ghost predicate IsStableSortOf<T(!new)>(cmp: (T, T) -> int, xs: seq<T>, ys: seq<T>) {
    && Sorted(cmp, ys)
    && multiset(ys) == multiset(xs)
    && forall x | x in xs :: Ties(cmp, ys, x) == Ties(cmp, xs, x)
  }

  function Insert<T>(cmp: (T, T) -> int, x: T, ys: seq<T>): seq<T> {
    if ys == [] || cmp(x, ys[0]) <= 0 then [x] + ys else [ys[0]] + Insert(cmp, x, ys[1..])
  }

  function Sort<T>(cmp: (T, T) -> int, xs: seq<T>): seq<T> {
    if xs == [] then [] else Insert(cmp, xs[0], Sort(cmp, xs[1..]))
  }

  // ---------------------------------------------------------------- the sort meets its specification

  lemma {:induction false} InsertElements<T>(cmp: (T, T) -> int, x: T, ys: seq<T>)
    ensures multiset(Insert(cmp, x, ys)) == multiset{x} + multiset(ys)
  {
    if ys != [] && cmp(x, ys[0]) > 0 {
      InsertElements(cmp, x, ys[1..]);
      assert ys == [ys[0]] + ys[1..];
    }
  }

  lemma {:induction false} InsertSorted<T(!new)>(cmp: (T, T) -> int, x: T, ys: seq<T>)
    requires Sorted(cmp, ys)
    requires forall y | y in ys :: cmp(x, y) <= 0 || cmp(y, x) <= 0
    requires forall y, z | y in ys && z in ys && cmp(x, y) <= 0 && cmp(y, z) <= 0 :: cmp(x, z) <= 0
    ensures Sorted(cmp, Insert(cmp, x, ys))
  {
    if ys != [] && cmp(x, ys[0]) > 0 {
      var rest := Insert(cmp, x, ys[1..]);
      InsertSorted(cmp, x, ys[1..]);
      InsertElements(cmp, x, ys[1..]);
      forall y | y in rest ensures cmp(ys[0], y) <= 0 {
        assert y in multiset(rest);
        assert y == x || y in ys[1..];
      }
    }
  }

  /** Insertion puts `x` in front of its ties. */
  lemma {:induction false} InsertTies<T>(cmp: (T, T) -> int, x: T, ys: seq<T>, z: T)
    requires forall y | y in ys && cmp(z, x) == 0 && cmp(z, y) == 0 :: cmp(x, y) <= 0
    ensures Ties(cmp, Insert(cmp, x, ys), z) == (if cmp(z, x) == 0 then [x] else []) + Ties(cmp, ys, z)
  {
    if ys == [] || cmp(x, ys[0]) <= 0 {
      TiesOfCons(cmp, x, ys, z);
    } else {
      InsertTies(cmp, x, ys[1..], z);
      TiesOfCons(cmp, ys[0], Insert(cmp, x, ys[1..]), z);
      assert cmp(z, x) != 0 || cmp(z, ys[0]) != 0;
      var rest := Ties(cmp, ys[1..], z);
      assert [] + rest == rest;
    }
  }

  lemma TiesOfCons<T>(cmp: (T, T) -> int, x: T, ys: seq<T>, z: T)
    ensures Ties(cmp, [x] + ys, z) == (if cmp(z, x) == 0 then [x] else []) + Ties(cmp, ys, z)
  {
    assert ([x] + ys)[1..] == ys;
  }

  lemma {:induction false} SortElements<T>(cmp: (T, T) -> int, xs: seq<T>)
    ensures multiset(Sort(cmp, xs)) == multiset(xs)
    ensures forall x :: x in Sort(cmp, xs) <==> x in xs
  {
    if xs != [] {
      SortElements(cmp, xs[1..]);
      InsertElements(cmp, xs[0], Sort(cmp, xs[1..]));
      assert xs == [xs[0]] + xs[1..];
    }
    forall x ensures x in Sort(cmp, xs) <==> x in xs {
      assert x in Sort(cmp, xs) <==> x in multiset(Sort(cmp, xs));
    }
  }

  lemma {:induction false} SortSorted<T(!new)>(cmp: (T, T) -> int, xs: seq<T>)
    requires TotalPreorder(cmp, xs)
    ensures Sorted(cmp, Sort(cmp, xs))
  {
    if xs != [] {
      assert xs == [xs[0]] + xs[1..];
      SortElements(cmp, xs[1..]);
      SortSorted(cmp, xs[1..]);
      InsertSorted(cmp, xs[0], Sort(cmp, xs[1..]));
    }
  }

  lemma {:induction false} SortTies<T(!new)>(cmp: (T, T) -> int, xs: seq<T>, z: T)
    requires forall x, y | x in xs && y in xs && cmp(z, x) == 0 && cmp(z, y) == 0 :: cmp(x, y) <= 0
    ensures Ties(cmp, Sort(cmp, xs), z) == Ties(cmp, xs, z)
  {
    if xs != [] {
      assert xs == [xs[0]] + xs[1..];
      SortElements(cmp, xs[1..]);
      SortTies(cmp, xs[1..], z);
      InsertTies(cmp, xs[0], Sort(cmp, xs[1..]), z);
    }
  }

  lemma SortIsStable<T(!new)>(cmp: (T, T) -> int, xs: seq<T>)
    requires TotalPreorder(cmp, xs)
    ensures IsStableSortOf(cmp, xs, Sort(cmp, xs))
  {
    SortElements(cmp, xs);
    SortSorted(cmp, xs);
    forall z | z in xs ensures Ties(cmp, Sort(cmp, xs), z) == Ties(cmp, xs, z) {
      SortTies(cmp, xs, z);
    }
  }

  // ---------------------------------------------------------------- ties keep their positions

  /** Somewhere the first element stands in front of the second. */
  predicate Precedes<T(==)>(xs: seq<T>, x: T, y: T) {
    exists p, q :: 0 <= p < q < |xs| && xs[p] == x && xs[q] == y
  }

  lemma PrecedesCons<T>(head: T, rest: seq<T>, x: T, y: T)
    ensures Precedes([head] + rest, x, y) <==> Precedes(rest, x, y) || (head == x && y in rest)
  {
    var xs := [head] + rest;
    if p, q :| 0 <= p < q < |xs| && xs[p] == x && xs[q] == y {
      assert rest[q - 1] == y && (p > 0 ==> rest[p - 1] == x);
    }
    if p, q :| 0 <= p < q < |rest| && rest[p] == x && rest[q] == y {
      assert xs[p + 1] == x && xs[q + 1] == y;
    }
    if q :| 0 <= q < |rest| && rest[q] == y {
      assert xs[q + 1] == y && xs[0] == head;
    }
  }

  /** Elements that compare equal to one keep among its ties the order in which they stand. */
  lemma {:induction false} TiesPrecede<T(!new)>(cmp: (T, T) -> int, xs: seq<T>, z: T, x: T, y: T)
    requires cmp(z, x) == 0 && cmp(z, y) == 0
    ensures Precedes(xs, x, y) <==> Precedes(Ties(cmp, xs, z), x, y)
  {
    if xs != [] {
      var rest := Ties(cmp, xs[1..], z);
      TiesPrecede(cmp, xs[1..], z, x, y);
      TiesMember(cmp, xs[1..], z);
      PrecedesCons(xs[0], xs[1..], x, y);
      assert xs == [xs[0]] + xs[1..];
      if cmp(z, xs[0]) == 0 {
        PrecedesCons(xs[0], rest, x, y);
      } else {
        assert Ties(cmp, xs, z) == rest;
      }
    }
  }

  /** A stable sort puts one of two ties in front of the other only where they stood so. */
  lemma StableSortPrecedes<T(!new)>(cmp: (T, T) -> int, xs: seq<T>, ys: seq<T>, i: nat, j: nat)
    requires IsStableSortOf(cmp, xs, ys) && i < j < |ys|
    requires cmp(ys[i], ys[i]) == 0 && cmp(ys[i], ys[j]) == 0
    ensures Precedes(xs, ys[i], ys[j])
  {
    assert ys[i] in multiset(ys);
    assert Precedes(ys, ys[i], ys[j]);
    TiesPrecede(cmp, ys, ys[i], ys[i], ys[j]);
    TiesPrecede(cmp, xs, ys[i], ys[i], ys[j]);
  }

  // ---------------------------------------------------------------- there is only one stable sort

  lemma {:induction false} TiesMember<T>(cmp: (T, T) -> int, xs: seq<T>, x: T)
    ensures forall y :: y in Ties(cmp, xs, x) <==> y in xs && cmp(x, y) == 0
  {
    if xs != [] {
      TiesMember(cmp, xs[1..], x);
      assert xs == [xs[0]] + xs[1..];
    }
  }

  lemma SameHead<T(!new)>(cmp: (T, T) -> int, ys: seq<T>, zs: seq<T>)
    requires ys != [] && zs != []
    requires cmp(ys[0], ys[0]) == 0
    requires forall x | x in ys && cmp(ys[0], x) <= 0 && cmp(x, ys[0]) <= 0 :: cmp(ys[0], x) == 0
    requires Sorted(cmp, ys) && Sorted(cmp, zs) && multiset(ys) == multiset(zs)
    requires Ties(cmp, ys, ys[0]) == Ties(cmp, zs, ys[0])
    ensures ys[0] == zs[0]
  {
    var a, b := ys[0], zs[0];
    assert a in multiset(zs) && b in multiset(ys);
    assert cmp(a, b) <= 0 && cmp(b, a) <= 0;
    assert Ties(cmp, ys, a)[0] == a && Ties(cmp, zs, a)[0] == b;
  }

  lemma SameLength<T>(ys: seq<T>, zs: seq<T>)
    requires multiset(ys) == multiset(zs)
    ensures |ys| == |zs|
  {
    assert |multiset(ys)| == |multiset(zs)|;
  }

  lemma SameTail<T>(ys: seq<T>, zs: seq<T>)
    requires ys != [] && zs != [] && ys[0] == zs[0] && multiset(ys) == multiset(zs)
    ensures multiset(ys[1..]) == multiset(zs[1..])
  {
    assert ys == [ys[0]] + ys[1..] && zs == [zs[0]] + zs[1..];
    assert multiset(ys[1..]) == multiset(ys) - multiset{ys[0]};
  }

  lemma TailTies<T>(cmp: (T, T) -> int, ys: seq<T>, zs: seq<T>, x: T)
    requires ys != [] && zs != [] && ys[0] == zs[0]
    requires Ties(cmp, ys, x) == Ties(cmp, zs, x)
    ensures Ties(cmp, ys[1..], x) == Ties(cmp, zs[1..], x)
  {
    var head := if cmp(x, ys[0]) == 0 then [ys[0]] else [];
    assert Ties(cmp, ys, x)[|head|..] == Ties(cmp, ys[1..], x);
    assert Ties(cmp, zs, x)[|head|..] == Ties(cmp, zs[1..], x);
  }

  /** Two sorted sequences with the same groups of ties are the same sequence. */
  lemma {:induction false} StableSortUnique<T(!new)>(cmp: (T, T) -> int, ys: seq<T>, zs: seq<T>)
    requires forall x | x in ys :: cmp(x, x) == 0
    requires forall x, y | x in ys && y in ys && cmp(x, y) <= 0 && cmp(y, x) <= 0 :: cmp(x, y) == 0
    requires Sorted(cmp, ys) && Sorted(cmp, zs) && multiset(ys) == multiset(zs)
    requires forall x | x in ys :: Ties(cmp, ys, x) == Ties(cmp, zs, x)
    ensures ys == zs
  {
    SameLength(ys, zs);
    if ys != [] {
      SameHead(cmp, ys, zs);
      SameTail(ys, zs);
      forall x | x in ys[1..] ensures Ties(cmp, ys[1..], x) == Ties(cmp, zs[1..], x) {
        TailTies(cmp, ys, zs, x);
      }
      StableSortUnique(cmp, ys[1..], zs[1..]);
      assert ys == [ys[0]] + ys[1..] && zs == [zs[0]] + zs[1..];
    }
  }

  /** Whatever stable algorithm sorts `xs`, its answer is `Sort(cmp, xs)`. */
  lemma OnlyStableSort<T(!new)>(cmp: (T, T) -> int, xs: seq<T>, ys: seq<T>)
    requires TotalPreorder(cmp, xs)
    ensures IsStableSortOf(cmp, xs, ys) <==> ys == Sort(cmp, xs)
  {
    SortIsStable(cmp, xs);
    if IsStableSortOf(cmp, xs, ys) {
      var zs := Sort(cmp, xs);
      forall x ensures x in ys <==> x in xs {
        assert x in ys <==> x in multiset(ys);
      }
      StableSortUnique(cmp, ys, zs);
    }
  }

  /** Sorted input comes back unchanged. */
  lemma SortOfSorted<T(!new)>(cmp: (T, T) -> int, xs: seq<T>)
    requires TotalPreorder(cmp, xs) && Sorted(cmp, xs)
    ensures Sort(cmp, xs) == xs
  {
    OnlyStableSort(cmp, xs, xs);
  }

  // ---------------------------------------------------------------- a comparator that may raise

  function InsertRaising<T>(cmp: (T, T) -> Result<int>, x: T, ys: seq<T>): Result<seq<T>> {
    if ys == [] then Ok([x])
    else
      var c :- cmp(x, ys[0]);
      if c <= 0 then Ok([x] + ys)
      else
        var rest :- InsertRaising(cmp, x, ys[1..]);
        Ok([ys[0]] + rest)
  }

  /** The sort with a comparator that raises on some pairs: it raises when it compares one of them. */
  function SortRaising<T>(cmp: (T, T) -> Result<int>, xs: seq<T>): Result<seq<T>> {
    if xs == [] then Ok([])
    else
      var rest :- SortRaising(cmp, xs[1..]);
      InsertRaising(cmp, xs[0], rest)
  }

  function Total<T>(cmp: (T, T) -> Result<int>): (T, T) -> int {
    (x: T, y: T) => if cmp(x, y).Ok? then cmp(x, y).value else 0
  }

  predicate AtMost<T>(cmp: (T, T) -> Result<int>, x: T, y: T) {
    cmp(x, y).Ok? && cmp(x, y).value <= 0
  }

  /** A preorder as far as the comparator answers; what it answers in a row it also answers at the ends. */
  ghost predicate PartialPreorder<T(!new)>(cmp: (T, T) -> Result<int>, xs: seq<T>) {
    && (forall x | x in xs :: AtMost(cmp, x, x))
    && (forall x, y | x in xs && y in xs && cmp(x, y).Ok? :: cmp(y, x).Ok? && cmp(y, x).value == -cmp(x, y).value)
    && (forall x, y, z | x in xs && y in xs && z in xs && AtMost(cmp, x, y) && AtMost(cmp, y, z) :: AtMost(cmp, x, z))
  }

  predicate Incomparable<T(==)>(cmp: (T, T) -> Result<int>, xs: seq<T>) {
    exists x, y | x in xs && y in xs :: cmp(x, y).Err?
  }

  ghost predicate Ascending<T>(cmp: (T, T) -> Result<int>, xs: seq<T>) {
    forall i, j | 0 <= i < j < |xs| :: AtMost(cmp, xs[i], xs[j])
  }

  lemma PartialOnFewer<T(!new)>(cmp: (T, T) -> Result<int>, xs: seq<T>, ys: seq<T>)
    requires PartialPreorder(cmp, xs) && forall y | y in ys :: y in xs
    ensures PartialPreorder(cmp, ys)
  {}

  /** Inserting into a sorted list raises exactly when the list holds an element `x` cannot be compared with. */
  lemma {:induction false} InsertRaisesIff<T(!new)>(cmp: (T, T) -> Result<int>, x: T, ys: seq<T>)
    requires PartialPreorder(cmp, [x] + ys) && Ascending(cmp, ys)
    ensures InsertRaising(cmp, x, ys).Ok? <==> forall y | y in ys :: cmp(x, y).Ok?
    ensures InsertRaising(cmp, x, ys).Ok? ==> InsertRaising(cmp, x, ys).value == Insert(Total(cmp), x, ys)
  {
    if ys != [] {
      assert x in [x] + ys && forall y | y in ys :: y in [x] + ys;
      assert ys == [ys[0]] + ys[1..];
      if AtMost(cmp, x, ys[0]) {
        forall y | y in ys ensures cmp(x, y).Ok? {
          var i :| 0 <= i < |ys| && ys[i] == y;
          assert AtMost(cmp, ys[0], ys[i]);
        }
      } else {
        PartialOnFewer(cmp, [x] + ys, [x] + ys[1..]);
        InsertRaisesIff(cmp, x, ys[1..]);
      }
    }
  }

  lemma {:induction false} TotalOfPartial<T(!new)>(cmp: (T, T) -> Result<int>, xs: seq<T>)
    requires PartialPreorder(cmp, xs) && !Incomparable(cmp, xs)
    ensures TotalPreorder(Total(cmp), xs)
  {
    forall x, y, z | x in xs && y in xs && z in xs
      ensures Total(cmp)(x, y) <= 0 && Total(cmp)(y, z) <= 0 ==> Total(cmp)(x, z) <= 0
    {
      assert cmp(x, y).Ok? && cmp(y, z).Ok?;
    }
  }

  lemma SortedAscends<T(!new)>(cmp: (T, T) -> Result<int>, xs: seq<T>)
    requires PartialPreorder(cmp, xs) && !Incomparable(cmp, xs)
    ensures Ascending(cmp, Sort(Total(cmp), xs))
    ensures forall x :: x in Sort(Total(cmp), xs) <==> x in xs
  {
    TotalOfPartial(cmp, xs);
    SortSorted(Total(cmp), xs);
    SortElements(Total(cmp), xs);
    SortedIsAscending(cmp, xs, Sort(Total(cmp), xs));
  }

  lemma SortedIsAscending<T(!new)>(cmp: (T, T) -> Result<int>, xs: seq<T>, ys: seq<T>)
    requires !Incomparable(cmp, xs) && Sorted(Total(cmp), ys) && forall y | y in ys :: y in xs
    ensures Ascending(cmp, ys)
  {
    forall i, j | 0 <= i < j < |ys| ensures AtMost(cmp, ys[i], ys[j]) {
      assert Total(cmp)(ys[i], ys[j]) <= 0;
      AtMostOfTotal(cmp, xs, ys[i], ys[j]);
    }
  }

  lemma AtMostOfTotal<T(!new)>(cmp: (T, T) -> Result<int>, xs: seq<T>, x: T, y: T)
    requires !Incomparable(cmp, xs) && x in xs && y in xs
    ensures AtMost(cmp, x, y) <==> Total(cmp)(x, y) <= 0
  {}

  /** The sort raises exactly when some pair cannot be compared, and otherwise is the stable sort. */
  lemma {:induction false} SortRaisesIff<T(!new)>(cmp: (T, T) -> Result<int>, xs: seq<T>)
    requires PartialPreorder(cmp, xs)
    ensures SortRaising(cmp, xs).Err? <==> Incomparable(cmp, xs)
    ensures SortRaising(cmp, xs).Ok? ==> SortRaising(cmp, xs).value == Sort(Total(cmp), xs)
  {
    if xs != [] {
      var x, rest := xs[0], xs[1..];
      assert xs == [x] + rest;
      PartialOnFewer(cmp, xs, rest);
      SortRaisesIff(cmp, rest);
      if !Incomparable(cmp, rest) {
        SortedAscends(cmp, rest);
        var ys := Sort(Total(cmp), rest);
        PartialOnFewer(cmp, xs, [x] + ys);
        InsertRaisesIff(cmp, x, ys);
        IncomparableWithFirst(cmp, x, rest);
      }
    }
  }

  lemma IncomparableWithFirst<T(!new)>(cmp: (T, T) -> Result<int>, x: T, rest: seq<T>)
    requires PartialPreorder(cmp, [x] + rest) && !Incomparable(cmp, rest)
    ensures Incomparable(cmp, [x] + rest) <==> exists y | y in rest :: cmp(x, y).Err?
  {
    assert x in [x] + rest && forall y | y in rest :: y in [x] + rest;
    assert cmp(x, x).Ok?;
    if a, b :| a in [x] + rest && b in [x] + rest && cmp(a, b).Err? {
      assert cmp(b, a).Err?;
      assert a == x || b == x;
    }
  }

  /**
   * No sort could do with less: once the neighbours of an answer have been found in order, every two
   * elements can be compared.
   */
  lemma {:induction false} NeighboursDecide<T(!new)>(cmp: (T, T) -> Result<int>, xs: seq<T>, ys: seq<T>)
    requires PartialPreorder(cmp, xs) && multiset(ys) == multiset(xs)
    requires forall i | 0 <= i < |ys| - 1 :: AtMost(cmp, ys[i], ys[i + 1])
    ensures !Incomparable(cmp, xs)
  {
    forall x | x in xs ensures x in ys {
      assert x in multiset(ys);
    }
    forall y | y in ys ensures y in xs {
      assert y in multiset(xs);
    }
    forall x, y | x in xs && y in xs ensures cmp(x, y).Ok? {
      var i :| 0 <= i < |ys| && ys[i] == x;
      var j :| 0 <= j < |ys| && ys[j] == y;
      if i <= j {
        ChainCompares(cmp, ys, i, j);
      } else {
        ChainCompares(cmp, ys, j, i);
      }
    }
  }

  lemma {:induction false} ChainCompares<T(!new)>(cmp: (T, T) -> Result<int>, ys: seq<T>, i: nat, j: nat)
    requires PartialPreorder(cmp, ys) && i <= j < |ys|
    requires forall k | 0 <= k < |ys| - 1 :: AtMost(cmp, ys[k], ys[k + 1])
    ensures AtMost(cmp, ys[i], ys[j]) && cmp(ys[j], ys[i]).Ok?
    decreases j
  {
    if i < j {
      ChainCompares(cmp, ys, i, j - 1);
      assert AtMost(cmp, ys[j - 1], ys[j - 1 + 1]);
    }
  }
}
