/** The sort order of in-memory sources: one field, then several fields with a direction each. */
module ObjectOrder {
  import opened Wrappers
  import opened Values
  import opened Meta
  import opened QueryParams

  // ---------------------------------------------------------------- compareTo of the boxed values

  /** `String.compareTo`: the difference at the first mismatch, or of the lengths. */
  function CompareText(s: string, t: string): int {
    if s == "" || t == "" then |s| - |t|
    else if s[0] != t[0] then s[0] as int - t[0] as int
    else CompareText(s[1..], t[1..])
  }

  /** Values of one Java class, or null. */
  predicate Comparable(v: Value, w: Value) {
    match (v, w)
    case (Null, _) => true
    case (_, Null) => true
    case (Num(k, _), Num(l, _)) => k == l
    case (Text(_), Text(_)) => true
    case (Bool(_), Bool(_)) => true
    case _ => false
  }

  /** `DefaultObjectComparator.compareField` on the two extracted values: null first. */
  function CompareField(v: Value, w: Value): Result<int> {
    match (v, w)
    case (Null, Null) => Ok(0)
    case (Null, _) => Ok(-1)
    case (_, Null) => Ok(1)
    case (Num(k, m), Num(l, n)) =>
      if k != l then Err(ClassCast)
      else Ok(if k.ShortKind? then m - n else if m < n then -1 else if m == n then 0 else 1)
    case (Text(s), Text(t)) => Ok(CompareText(s, t))
    case (Bool(p), Bool(q)) => Ok(if p == q then 0 else if q then -1 else 1)
    case _ => Err(ClassCast)
  }

  /** A value Java can hold: numbers in the range of their box, strings of at most 2^31-1 characters. */
  predicate JavaValue(v: Value) {
    Representable(v) && (v.Text? ==> |v.s| <= INT_MAX)
  }

  function Sign(n: int): int {
    if n < 0 then -1 else if n == 0 then 0 else 1
  }

  lemma {:induction false} CompareTextMirror(s: string, t: string)
    requires |s| <= INT_MAX && |t| <= INT_MAX
    ensures CompareText(s, t) == -CompareText(t, s)
    ensures CompareText(s, t) == 0 <==> s == t
    ensures INT_MIN < CompareText(s, t) <= INT_MAX
  {
    if s != "" && t != "" {
      CompareTextMirror(s[1..], t[1..]);
      assert s == [s[0]] + s[1..] && t == [t[0]] + t[1..];
    }
  }

  lemma {:induction false} CompareTextTransitive(s: string, t: string, u: string)
    requires |s| <= INT_MAX && |t| <= INT_MAX && |u| <= INT_MAX
    requires CompareText(s, t) <= 0 && CompareText(t, u) <= 0
    ensures CompareText(s, u) <= 0
  {
    if s != "" && t != "" && u != "" && s[0] == t[0] == u[0] {
      CompareTextTransitive(s[1..], t[1..], u[1..]);
    }
  }

  /** One field: a total preorder of 32-bit answers that never reach the smallest int. */
  lemma FieldOrder(u: Value, v: Value, w: Value)
    requires JavaValue(u) && JavaValue(v) && JavaValue(w)
    requires Comparable(u, v) && Comparable(v, w) && Comparable(u, w)
    ensures CompareField(u, v).Ok? && INT_MIN < CompareField(u, v).value <= INT_MAX
    ensures CompareField(v, u).Ok? && CompareField(v, u).value == -CompareField(u, v).value
    ensures CompareField(v, w).Ok? && CompareField(u, w).Ok?
    ensures CompareField(u, v).value <= 0 && CompareField(v, w).value <= 0 ==> CompareField(u, w).value <= 0
  {
    if u.Text? && v.Text? {
      CompareTextMirror(u.s, v.s);
      if w.Text? && CompareText(u.s, v.s) <= 0 && CompareText(v.s, w.s) <= 0 {
        CompareTextTransitive(u.s, v.s, w.s);
      }
    }
  }

  // ---------------------------------------------------------------- which value comes first

  lemma {:induction false} CompareTextOrders(s: string, t: string)
    ensures CompareText(s, t) < 0 <==> TextBefore(s, t)
  {
    if s == "" && t != "" {
      assert s[..0] == t[..0];
    } else if s != "" && t != "" && s[0] != t[0] {
      assert s[..0] == t[..0];
      assert forall k | 0 < k <= |s| && k < |t| :: s[..k][0] != t[..k][0];
    } else if s != "" && t != "" {
      CompareTextOrders(s[1..], t[1..]);
      TextBeforeTail(s, t);
    }
  }

  lemma TextBeforeTail(s: string, t: string)
    requires s != "" && t != "" && s[0] == t[0]
    ensures TextBefore(s, t) <==> TextBefore(s[1..], t[1..])
  {
    if k :| 0 <= k <= |s| && k < |t| && s[..k] == t[..k] && (k == |s| || s[k] < t[k]) {
      assert s[1..][..k - 1] == s[..k][1..] && t[1..][..k - 1] == t[..k][1..];
    }
    if k :| 0 <= k <= |s[1..]| && k < |t[1..]| && s[1..][..k] == t[1..][..k]
            && (k == |s[1..]| || s[1..][k] < t[1..][k]) {
      assert s[..k + 1] == [s[0]] + s[1..][..k] && t[..k + 1] == [t[0]] + t[1..][..k];
    }
  }

  /** The sign of the answer on one field: negative exactly when the first value comes first, zero on equal values. */
  lemma FieldSign(v: Value, w: Value)
    requires JavaValue(v) && JavaValue(w)
    ensures CompareField(v, w).Ok? <==> Comparable(v, w)
    ensures Comparable(v, w) ==>
              && (CompareField(v, w).value < 0 <==> Before(v, w))
              && (CompareField(v, w).value > 0 <==> Before(w, v))
              && (CompareField(v, w).value == 0 <==> v == w)
  {
    if v.Text? && w.Text? {
      CompareTextMirror(v.s, w.s);
      CompareTextOrders(v.s, w.s);
      CompareTextOrders(w.s, v.s);
    }
  }

  // ---------------------------------------------------------------- the 32-bit flip

  /** Two's-complement wrap to a Java int. */
  function Wrap32(n: int): int {
    (n - INT_MIN) % 0x1_0000_0000 + INT_MIN
  }

  /** `compareResult * -1` reverses a comparison exactly when it is not the smallest int. */
  lemma FlipReversesIff(r: int)
    requires INT_MIN <= r <= INT_MAX
    ensures Sign(Wrap32(r * -1)) == -Sign(r) <==> r != INT_MIN
    ensures r != INT_MIN ==> Wrap32(r * -1) == -r
  {
    if r == INT_MIN {
      assert Wrap32(r * -1) == INT_MIN;
    } else {
      assert (-r - INT_MIN) % 0x1_0000_0000 == -r - INT_MIN;
    }
  }

  // ---------------------------------------------------------------- several keys

  /** The keys in turn until one decides; DESC flips the deciding answer. */
  function CompareKeys(keys: seq<OrderField>, x: Field -> Value, y: Field -> Value): Result<int> {
    if keys == [] then Ok(0)
    else
      var r :- CompareField(x(keys[0].field), y(keys[0].field));
      if r != 0 then Ok(if keys[0].order.Desc? then Wrap32(r * -1) else r)
      else CompareKeys(keys[1..], x, y)
  }

  /** Null objects come first. */
  function CompareObjects(keys: seq<OrderField>, o1: Option<Field -> Value>, o2: Option<Field -> Value>): Result<int> {
    match (o1, o2)
    case (None, None) => Ok(0)
    case (None, Some(_)) => Ok(-1)
    case (Some(_), None) => Ok(1)
    case (Some(x), Some(y)) => CompareKeys(keys, x, y)
  }

  /** The comparator as it runs: a loop over the order fields, left at the first that decides. */
  method CompareLoop(keys: seq<OrderField>, o1: Option<Field -> Value>,
                     o2: Option<Field -> Value>) returns (r: Result<int>)
    ensures r == CompareObjects(keys, o1, o2)
  {
    var compareResult: int;
    if o1.None? {
      compareResult := if o2.None? then 0 else -1;
    } else if o2.None? {
      compareResult := 1;
    } else {
      compareResult := 0;
      for i := 0 to |keys|
        invariant compareResult == 0
        invariant CompareObjects(keys, o1, o2) == CompareKeys(keys[i..], o1.value, o2.value)
      {
        var one := CompareField(o1.value(keys[i].field), o2.value(keys[i].field));
        if one.Err? {
          return one;
        }
        compareResult := one.value;
        if compareResult != 0 {
          compareResult := if keys[i].order.Desc? then Wrap32(compareResult * -1) else compareResult;
          break;
        }
      }
    }
    r := Ok(compareResult);
  }

  /** The object holds values Java can hold on every order field. */
  predicate JavaObject(keys: seq<OrderField>, o: Field -> Value) {
    forall k | k in keys :: JavaValue(o(k.field))
  }

  predicate Compares(keys: seq<OrderField>, x: Field -> Value, y: Field -> Value) {
    JavaObject(keys, x) && JavaObject(keys, y) && CompareKeys(keys, x, y).Ok?
  }

  /** The first key is always compared; the others only between objects that tie on it. */
  lemma FirstKey(keys: seq<OrderField>, x: Field -> Value, y: Field -> Value)
    requires keys != [] && Compares(keys, x, y)
    ensures var u, v := x(keys[0].field), y(keys[0].field);
            && JavaValue(u) && JavaValue(v) && Comparable(u, v)
            && JavaObject(keys[1..], x) && JavaObject(keys[1..], y)
            && (CompareField(u, v).value == 0 ==> Compares(keys[1..], x, y))
            && CompareKeys(keys, x, y) ==
               if CompareField(u, v).value == 0 then CompareKeys(keys[1..], x, y)
               else if keys[0].order.Desc? then Ok(-CompareField(u, v).value)
               else CompareField(u, v)
  {
    var u, v := x(keys[0].field), y(keys[0].field);
    assert keys[0] in keys && forall k | k in keys[1..] :: k in keys;
    FieldOrder(u, v, v);
    FlipReversesIff(CompareField(u, v).value);
  }

  lemma {:induction false} KeysMirror(keys: seq<OrderField>, x: Field -> Value, y: Field -> Value)
    requires Compares(keys, x, y)
    ensures Compares(keys, y, x) && CompareKeys(keys, y, x).value == -CompareKeys(keys, x, y).value
  {
    if keys != [] {
      var u, v := x(keys[0].field), y(keys[0].field);
      FirstKey(keys, x, y);
      FieldOrder(u, v, u);
      if CompareField(u, v).value == 0 {
        KeysMirror(keys[1..], x, y);
      } else {
        FlipReversesIff(CompareField(v, u).value);
      }
    }
  }

  /** The objects hold the same values on all of the keys. */
  predicate SameValues(keys: seq<OrderField>, x: Field -> Value, y: Field -> Value) {
    forall l | 0 <= l < |keys| :: x(keys[l].field) == y(keys[l].field)
  }

  /**
   * The first object may stand before the second: on every key up to which they hold the same values it
   * does not come after it, under DESC not before it.
   */
  predicate InOrder(keys: seq<OrderField>, x: Field -> Value, y: Field -> Value) {
    forall m {:trigger keys[m]} | 0 <= m < |keys| && SameValues(keys[..m], x, y) ::
      var u, v := x(keys[m].field), y(keys[m].field);
      if keys[m].order.Desc? then !Before(u, v) else !Before(v, u)
  }

  lemma SameValuesTail(keys: seq<OrderField>, x: Field -> Value, y: Field -> Value)
    requires keys != []
    ensures SameValues(keys, x, y) <==> x(keys[0].field) == y(keys[0].field) && SameValues(keys[1..], x, y)
  {
    if SameValues(keys, x, y) {
      forall l | 0 <= l < |keys[1..]| ensures x(keys[1..][l].field) == y(keys[1..][l].field) {
        assert keys[1..][l] == keys[l + 1];
      }
    }
    if x(keys[0].field) == y(keys[0].field) && SameValues(keys[1..], x, y) {
      forall l | 0 < l < |keys| ensures x(keys[l].field) == y(keys[l].field) {
        assert keys[l] == keys[1..][l - 1];
      }
    }
  }

  lemma InOrderTail(keys: seq<OrderField>, x: Field -> Value, y: Field -> Value)
    requires keys != []
    ensures var u, v := x(keys[0].field), y(keys[0].field);
            InOrder(keys, x, y) <==>
            && (if keys[0].order.Desc? then !Before(u, v) else !Before(v, u))
            && (u == v ==> InOrder(keys[1..], x, y))
  {
    assert SameValues(keys[..0], x, y);
    forall m | 0 < m < |keys|
      ensures keys[m] == keys[1..][m - 1]
      ensures SameValues(keys[..m], x, y) <==>
              x(keys[0].field) == y(keys[0].field) && SameValues(keys[1..][..m - 1], x, y)
    {
      SameValuesTail(keys[..m], x, y);
      assert keys[..m][1..] == keys[1..][..m - 1];
    }
    if InOrder(keys, x, y) && x(keys[0].field) == y(keys[0].field) {
      forall m {:trigger keys[1..][m]} | 0 <= m < |keys[1..]| && SameValues(keys[1..][..m], x, y)
        ensures var u, v := x(keys[1..][m].field), y(keys[1..][m].field);
                if keys[1..][m].order.Desc? then !Before(u, v) else !Before(v, u)
      {
        assert keys[m + 1] == keys[1..][m];
      }
    }
  }

  /**
   * What the comparator answers in terms of the values: at most zero exactly when the first object may
   * stand before the second, zero exactly when they hold the same values on all keys.
   */
  lemma {:induction false} KeysOrder(keys: seq<OrderField>, x: Field -> Value, y: Field -> Value)
    requires Compares(keys, x, y)
    ensures CompareKeys(keys, x, y).value <= 0 <==> InOrder(keys, x, y)
    ensures CompareKeys(keys, x, y).value == 0 <==> SameValues(keys, x, y)
  {
    if keys != [] {
      var u, v := x(keys[0].field), y(keys[0].field);
      FirstKey(keys, x, y);
      FieldSign(u, v);
      InOrderTail(keys, x, y);
      SameValuesTail(keys, x, y);
      if u == v {
        KeysOrder(keys[1..], x, y);
      }
    }
  }

  /** How the answers on one key fit together. */
  lemma FieldTransitive(u: Value, v: Value, w: Value)
    requires JavaValue(u) && JavaValue(v) && JavaValue(w)
    requires Comparable(u, v) && Comparable(v, w) && Comparable(u, w)
    ensures var uv, vw, uw := CompareField(u, v), CompareField(v, w), CompareField(u, w);
            && uv.Ok? && vw.Ok? && uw.Ok?
            && (uv.value <= 0 && vw.value <= 0 ==> uw.value <= 0 && (uw.value == 0 ==> uv.value == 0 && vw.value == 0))
            && (uv.value >= 0 && vw.value >= 0 ==> uw.value >= 0 && (uw.value == 0 ==> uv.value == 0 && vw.value == 0))
  {
    FieldOrder(u, v, w);
    FieldOrder(v, w, u);
    FieldOrder(w, u, v);
    FieldOrder(w, v, u);
    FieldOrder(v, u, w);
    FieldOrder(u, w, v);
  }

  lemma {:induction false} KeysTransitive(keys: seq<OrderField>, x: Field -> Value, y: Field -> Value,
                                          z: Field -> Value)
    requires Compares(keys, x, y) && Compares(keys, y, z) && Compares(keys, x, z)
    requires CompareKeys(keys, x, y).value <= 0 && CompareKeys(keys, y, z).value <= 0
    ensures CompareKeys(keys, x, z).value <= 0
    ensures CompareKeys(keys, x, z).value == 0 ==>
            CompareKeys(keys, x, y).value == 0 && CompareKeys(keys, y, z).value == 0
  {
    if keys != [] {
      var u, v, w := x(keys[0].field), y(keys[0].field), z(keys[0].field);
      FirstKey(keys, x, y);
      FirstKey(keys, y, z);
      FirstKey(keys, x, z);
      FieldTransitive(u, v, w);
      if CompareField(u, v).value == 0 && CompareField(v, w).value == 0 {
        KeysTransitive(keys[1..], x, y, z);
      }
    }
  }

  /** What compares in a row compares at the ends. */
  lemma {:induction false} KeysChain(keys: seq<OrderField>, x: Field -> Value, y: Field -> Value, z: Field -> Value)
    requires Compares(keys, x, y) && Compares(keys, y, z)
    requires CompareKeys(keys, x, y).value <= 0 && CompareKeys(keys, y, z).value <= 0
    ensures CompareKeys(keys, x, z).Ok?
  {
    if keys != [] {
      var u, v, w := x(keys[0].field), y(keys[0].field), z(keys[0].field);
      FirstKey(keys, x, y);
      FirstKey(keys, y, z);
      assert Comparable(u, w);
      FieldTransitive(u, v, w);
      if CompareField(u, v).value == 0 && CompareField(v, w).value == 0 {
        KeysChain(keys[1..], x, y, z);
      }
    }
  }

  lemma {:induction false} KeysSelf(keys: seq<OrderField>, x: Field -> Value)
    ensures CompareKeys(keys, x, x) == Ok(0)
  {
    if keys != [] {
      var u := x(keys[0].field);
      if u.Text? {
        CompareTextSelf(u.s);
      }
      KeysSelf(keys[1..], x);
    }
  }

  lemma {:induction false} CompareTextSelf(s: string)
    ensures CompareText(s, s) == 0
  {
    if s != "" {
      CompareTextSelf(s[1..]);
    }
  }

  predicate JavaOption(keys: seq<OrderField>, o: Option<Field -> Value>) {
    o.Some? ==> JavaObject(keys, o.value)
  }

  lemma ObjectsMirror(keys: seq<OrderField>, a: Option<Field -> Value>, b: Option<Field -> Value>)
    requires JavaOption(keys, a) && JavaOption(keys, b) && CompareObjects(keys, a, b).Ok?
    ensures CompareObjects(keys, b, a).Ok? && CompareObjects(keys, b, a).value == -CompareObjects(keys, a, b).value
  {
    if a.Some? && b.Some? {
      KeysMirror(keys, a.value, b.value);
    }
  }

  lemma ObjectsTransitive(keys: seq<OrderField>, a: Option<Field -> Value>, b: Option<Field -> Value>,
                          c: Option<Field -> Value>)
    requires JavaOption(keys, a) && JavaOption(keys, b) && JavaOption(keys, c)
    requires CompareObjects(keys, a, b).Ok? && CompareObjects(keys, b, c).Ok? && CompareObjects(keys, a, c).Ok?
    requires CompareObjects(keys, a, b).value <= 0 && CompareObjects(keys, b, c).value <= 0
    ensures CompareObjects(keys, a, c).value <= 0
    ensures CompareObjects(keys, a, c).value == 0 ==>
            CompareObjects(keys, a, b).value == 0 && CompareObjects(keys, b, c).value == 0
  {
    if a.Some? && b.Some? && c.Some? {
      KeysTransitive(keys, a.value, b.value, c.value);
    }
  }

  /**
   * Wherever it does not raise, the comparator of any list of order fields is a total preorder, null
   * values and null objects included: antisymmetric in sign, transitive, and objects that tie compare
   * alike with everything else.
   */
  lemma ComparatorIsTotalPreorder(keys: seq<OrderField>, a: Option<Field -> Value>, b: Option<Field -> Value>,
                                  c: Option<Field -> Value>)
    requires JavaOption(keys, a) && JavaOption(keys, b) && JavaOption(keys, c)
    requires CompareObjects(keys, a, b).Ok? && CompareObjects(keys, b, c).Ok? && CompareObjects(keys, a, c).Ok?
    ensures CompareObjects(keys, b, a).Ok? && CompareObjects(keys, b, a).value == -CompareObjects(keys, a, b).value
    ensures CompareObjects(keys, a, b).value <= 0 && CompareObjects(keys, b, c).value <= 0 ==>
              CompareObjects(keys, a, c).value <= 0
    ensures CompareObjects(keys, a, b).value == 0 ==>
              Sign(CompareObjects(keys, a, c).value) == Sign(CompareObjects(keys, b, c).value)
  {
    ObjectsMirror(keys, a, b);
    ObjectsMirror(keys, b, c);
    ObjectsMirror(keys, a, c);
    if CompareObjects(keys, a, b).value <= 0 && CompareObjects(keys, b, c).value <= 0 {
      ObjectsTransitive(keys, a, b, c);
    }
    if CompareObjects(keys, a, b).value == 0 {
      if CompareObjects(keys, a, c).value <= 0 {
        ObjectsTransitive(keys, b, a, c);
      }
      if CompareObjects(keys, a, c).value >= 0 {
        ObjectsTransitive(keys, c, a, b);
      }
    }
  }

  /** In terms of the objects: null first, then as the values on the keys stand. */
  lemma ObjectsOrder(keys: seq<OrderField>, a: Option<Field -> Value>, b: Option<Field -> Value>)
    requires JavaOption(keys, a) && JavaOption(keys, b) && CompareObjects(keys, a, b).Ok?
    ensures CompareObjects(keys, a, b).value <= 0 <==> a.None? || (b.Some? && InOrder(keys, a.value, b.value))
    ensures CompareObjects(keys, a, b).value == 0 <==>
            (a.None? && b.None?) || (a.Some? && b.Some? && SameValues(keys, a.value, b.value))
  {
    if a.Some? && b.Some? {
      KeysOrder(keys, a.value, b.value);
    }
  }
}
