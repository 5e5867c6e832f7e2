/** Field values as Java objects: boxed integers of three widths, strings, booleans and null. */
module Values {
  import opened Wrappers

  datatype NumKind = LongKind | IntegerKind | ShortKind

  datatype Value =
    | Null
    | Num(kind: NumKind, n: int)
    | Text(s: string)
    | Bool(b: bool)

  const INT_MIN := -0x8000_0000
  const INT_MAX := 0x7fff_ffff

  function MinOf(k: NumKind): int {
    match k
    case LongKind => -0x8000_0000_0000_0000
    case IntegerKind => INT_MIN
    case ShortKind => -0x8000
  }

  function MaxOf(k: NumKind): int {
    match k
    case LongKind => 0x7fff_ffff_ffff_ffff
    case IntegerKind => INT_MAX
    case ShortKind => 0x7fff
  }

  predicate InRange(k: NumKind, n: int) {
    MinOf(k) <= n <= MaxOf(k)
  }

  predicate Representable(v: Value) {
    v.Num? ==> InRange(v.kind, v.n)
  }

  // ---------------------------------------------------------------- which value comes first

  /** At the first place where they differ the smaller character, or the end of the text, comes first. */
  predicate TextBefore(s: string, t: string) {
    exists k | 0 <= k <= |s| && k < |t| :: s[..k] == t[..k] && (k == |s| || s[k] < t[k])
  }

  /** Null before every value, the smaller number, text in dictionary order, false before true. */
  predicate Before(v: Value, w: Value) {
    match (v, w)
    case (Null, _) => !w.Null?
    case (Num(_, m), Num(_, n)) => m < n
    case (Text(s), Text(t)) => TextBefore(s, t)
    case (Bool(p), Bool(q)) => !p && q
    case _ => false
  }

  // ---------------------------------------------------------------- decimal text

  function Digit(d: nat): char
    requires d < 10
  {
    "0123456789"[d]
  }

  predicate IsDigit(c: char) {
    '0' <= c <= '9'
  }

  function ShowNat(n: nat): string {
    if n < 10 then [Digit(n)] else ShowNat(n / 10) + [Digit(n % 10)]
  }

  function ShowInt(n: int): string {
    if n < 0 then "-" + ShowNat(-n) else ShowNat(n)
  }

  /** `value.toString()`, and what Java's string concatenation prints for null. */
  function Show(v: Value): string {
    match v
    case Null => "null"
    case Num(_, n) => ShowInt(n)
    case Text(s) => s
    case Bool(b) => if b then "true" else "false"
  }

  function ParseNat(s: string): (r: Result<nat>)
    ensures r.Err? ==> r.error == NumberFormat
  {
    if s == "" then Err(NumberFormat)
    else
      var last := s[|s| - 1];
      if !IsDigit(last) then Err(NumberFormat)
      else if |s| == 1 then Ok((last - '0') as nat)
      else
        var front :- ParseNat(s[..|s| - 1]);
        Ok(10 * front + (last - '0') as nat)
  }

  /** `Long.valueOf` and `Integer.valueOf`: an optional sign, digits, and a range check. */
  function ParseNum(k: NumKind, s: string): (r: Result<int>)
    ensures r.Err? ==> r.error == NumberFormat
  {
    if s == "" then Err(NumberFormat)
    else
      var magnitude :- ParseNat(if s[0] == '-' || s[0] == '+' then s[1..] else s);
      var n: int := if s[0] == '-' then 0 - magnitude else magnitude;
      if InRange(k, n) then Ok(n) else Err(NumberFormat)
  }

  lemma {:induction false} ParseShowNat(n: nat)
    ensures ParseNat(ShowNat(n)) == Ok(n)
    ensures |ShowNat(n)| > 0 && IsDigit(ShowNat(n)[0])
  {
    if n >= 10 {
      ParseShowNat(n / 10);
      assert ShowNat(n)[..|ShowNat(n)| - 1] == ShowNat(n / 10);
    }
  }

  /** Decimal text is printed without leading zeros. */
  lemma {:induction false} ShowNatUnpadded(n: nat)
    ensures ShowNat(n) != "" && (ShowNat(n)[0] == '0' <==> n == 0)
    ensures n == 0 ==> ShowNat(n) == "0"
  {
    if n >= 10 {
      ShowNatUnpadded(n / 10);
      ParseShowNat(n / 10);
    }
  }

  /** An identifier printed with `toString` is read back by `Long.valueOf`. */
  lemma ParseShowInt(k: NumKind, n: int)
    requires InRange(k, n)
    ensures ParseNum(k, ShowInt(n)) == Ok(n)
  {
    ParseShowNat(if n < 0 then -n else n);
    if n < 0 {
      assert ShowInt(n)[1..] == ShowNat(-n);
    }
  }

  lemma ShowIntInjective(m: int, n: int)
    requires ShowInt(m) == ShowInt(n)
    ensures m == n
  {
    ParseShowNat(if m < 0 then -m else m);
    ParseShowNat(if n < 0 then -n else n);
    if m < 0 {
      assert ShowInt(m)[1..] == ShowNat(-m);
    }
    if n < 0 {
      assert ShowInt(n)[1..] == ShowNat(-n);
    }
  }

  lemma {:induction false} ParsedNatIsDigits(s: string)
    requires ParseNat(s).Ok?
    ensures forall c | c in s :: IsDigit(c)
  {
    var front := s[..|s| - 1];
    if |s| > 1 {
      ParsedNatIsDigits(front);
    }
    assert s == front + [s[|s| - 1]];
  }

  /** Text that `Long.valueOf` reads is digits, at most with a sign in front. */
  lemma ParsedIsPlain(k: NumKind, s: string)
    requires ParseNum(k, s).Ok?
    ensures forall c | c in s :: IsDigit(c) || c == '-' || c == '+'
  {
    if s[0] == '-' || s[0] == '+' {
      ParsedNatIsDigits(s[1..]);
      assert s == [s[0]] + s[1..];
    } else {
      ParsedNatIsDigits(s);
    }
  }

  /** The text an identifier is printed as; others, such as `007` and `+7`, read as the same number. */
  predicate Canonical(id: string) {
    var n := ParseNum(LongKind, id);
    n.Ok? && id == ShowInt(n.value)
  }

  /** Text that is printed for some number and can be read is printed for the number it reads as. */
  lemma PrintedIsCanonical(n: int)
    ensures ParseNum(LongKind, ShowInt(n)) == if InRange(LongKind, n) then Ok(n) else Err(NumberFormat)
    ensures Canonical(ShowInt(n)) <==> InRange(LongKind, n)
  {
    ParseShowNat(if n < 0 then -n else n);
    if n < 0 {
      assert ShowInt(n)[1..] == ShowNat(-n);
    }
  }

  /** A printed number can be read back exactly when it fits the box: 64, 32 or 16 bits. */
  lemma ReadsWithinBox(k: NumKind, n: int)
    ensures ParseNum(k, ShowInt(n)) == Ok(n) || ParseNum(k, ShowInt(n)).Err?
    ensures ParseNum(k, ShowInt(n)).Ok? <==>
            match k
            case LongKind => -9223372036854775808 <= n <= 9223372036854775807
            case IntegerKind => -2147483648 <= n <= 2147483647
            case ShortKind => -32768 <= n <= 32767
  {
    ParseShowNat(if n < 0 then -n else n);
    if n < 0 {
      assert ShowInt(n)[1..] == ShowNat(-n);
    }
  }

  /** `007` reads as 7 and is not what 7 prints as. */
  lemma PaddedNotCanonical()
    ensures ParseNum(LongKind, "007") == Ok(7) && ShowInt(7) == "7" && !Canonical("007")
  {
    var s: string := "007";
    assert s[..2] == "00" && s[..2][..1] == "0";
    assert ParseNat("0") == Ok(0) && ParseNat("00") == Ok(0) && ParseNat("007") == Ok(7);
    assert |ShowInt(7)| == 1;
  }
}
