/**
 * Case-insensitive SQL LIKE, against the substring tests of java.lang.String.
 *
 * The converter builds patterns by plain concatenation, without escaping: `%v%`, `v%` and `%v`.
 * `Match` is the LIKE predicate of ISO/IEC 9075-2:2003 section 8.5 with the backslash as escape
 * character, PostgreSQL's default.
 */
module Like {

  // ---------------------------------------------------------------- case folding

  predicate Special(c: char) {
    c == '%' || c == '_' || c == '\\'
  }

  /**
   * What the results need of the database's lower case: doing it twice changes nothing, of the ASCII
   * characters only the capitals move, and nothing else becomes a wildcard or the escape character.
   */
  ghost predicate IsCaseFold(f: char -> char) {
    && (forall c :: f(f(c)) == f(c))
    && (forall c | c < '\U{0080}' && !('A' <= c <= 'Z') :: f(c) == c)
    && (forall c | Special(f(c)) :: f(c) == c)
  }

  type CaseFold = f: char -> char | IsCaseFold(f) witness (c: char) => c

  /** The lower case of the database's locale, whichever it is: everything below holds of every one. */
  const LOWER: CaseFold

  function LowerAll(s: string): (r: string)
    ensures |r| == |s|
    ensures forall i | 0 <= i < |s| :: r[i] == LOWER(s[i])
  {
    seq(|s|, i requires 0 <= i < |s| => LOWER(s[i]))
  }

  predicate Folded(s: string) {
    LowerAll(s) == s
  }

  lemma LowerLowered(s: string)
    ensures Folded(LowerAll(s))
  {}

  // ---------------------------------------------------------------- LIKE

  predicate Match(p: string, s: string)
    decreases |p| + |s|
  {
    if p == "" then s == ""
    else if p[0] == '%' then Match(p[1..], s) || (s != "" && Match(p, s[1..]))
    else if p[0] == '_' then s != "" && Match(p[1..], s[1..])
    else if p[0] == '\\' then |p| > 1 && s != "" && s[0] == p[1] && Match(p[2..], s[1..])
    else s != "" && s[0] == p[0] && Match(p[1..], s[1..])
  }

  /** A pattern must not end in a dangling escape: the database rejects the query then. */
  predicate WellFormed(p: string) {
    if p == "" then true
    else if p[0] == '\\' then |p| > 1 && WellFormed(p[2..])
    else WellFormed(p[1..])
  }

  /** jOOQ's `likeIgnoreCase`. */
  predicate ILike(s: string, p: string) {
    Match(LowerAll(p), LowerAll(s))
  }

  // ---------------------------------------------------------------- substring tests

  datatype TextOp = Anywhere | Prefix | Suffix

  predicate StartsWith(s: string, v: string) {
    |v| <= |s| && s[..|v|] == v
  }

  predicate EndsWith(s: string, v: string) {
    |v| <= |s| && s[|s| - |v|..] == v
  }

  predicate Contains(s: string, v: string) {
    exists k | 0 <= k <= |s| :: StartsWith(s[k..], v)
  }

  predicate Holds(op: TextOp, s: string, v: string) {
    match op
    case Anywhere => Contains(s, v)
    case Prefix => StartsWith(s, v)
    case Suffix => EndsWith(s, v)
  }

  function Pattern(op: TextOp, v: string): string {
    match op
    case Anywhere => "%" + v + "%"
    case Prefix => v + "%"
    case Suffix => "%" + v
  }

  predicate Plain(v: string) {
    '%' !in v && '_' !in v && '\\' !in v
  }

  // ---------------------------------------------------------------- matcher lemmas

  lemma {:induction false} MatchPercent(p: string, s: string)
    ensures Match("%" + p, s) <==> exists k | 0 <= k <= |s| :: Match(p, s[k..])
    decreases |s|
  {
    var q := "%" + p;
    assert q[1..] == p;
    assert s[0..] == s;
    if s != "" {
      MatchPercent(p, s[1..]);
      if k :| 0 <= k <= |s| - 1 && Match(p, s[1..][k..]) {
        assert s[1..][k..] == s[k + 1..];
      }
      if k :| 1 <= k <= |s| && Match(p, s[k..]) {
        assert s[1..][k - 1..] == s[k..];
      }
    }
  }

  lemma {:induction false} MatchLiteral(v: string, p: string, s: string)
    requires Plain(v)
    ensures Match(v + p, s) <==> StartsWith(s, v) && Match(p, s[|v|..])
  {
    if v == "" {
      assert v + p == p;
      assert s[|v|..] == s;
    } else {
      assert (v + p)[1..] == v[1..] + p;
      if s != "" {
        MatchLiteral(v[1..], p, s[1..]);
        assert |v| <= |s| ==> s[1..][|v| - 1..] == s[|v|..] && s[..|v|] == [s[0]] + s[1..][..|v| - 1];
        assert v == [v[0]] + v[1..];
      }
    }
  }

  lemma MatchEverything(s: string)
    ensures Match("%", s)
  {
    MatchPercent("", s);
    assert "%" + "" == "%";
    assert s[|s|..] == "";
  }

  /** For text without wildcards the three patterns mean exactly the three substring tests. */
  lemma PlainPatternExact(op: TextOp, v: string, s: string)
    requires Plain(v)
    ensures Match(Pattern(op, v), s) <==> Holds(op, s, v)
    decreases op.Anywhere?
  {
    match op
    case Prefix =>
      MatchLiteral(v, "%", s);
      if |v| <= |s| { MatchEverything(s[|v|..]); }
    case Anywhere =>
      assert Pattern(op, v) == "%" + (v + "%");
      MatchPercent(v + "%", s);
      forall k | 0 <= k <= |s|
        ensures Match(v + "%", s[k..]) <==> StartsWith(s[k..], v)
      {
        PlainPatternExact(Prefix, v, s[k..]);
      }
    case Suffix =>
      MatchPercent(v, s);
      forall k | 0 <= k <= |s|
        ensures Match(v, s[k..]) <==> s[k..] == v
      {
        assert v + "" == v;
        MatchLiteral(v, "", s[k..]);
        if |v| <= |s[k..]| { assert s[k..] == s[k..][..|v|] + s[k..][|v|..]; }
      }
      if |v| <= |s| && s[|s| - |v|..] == v { assert Match(v, s[|s| - |v|..]); }
  }

  // ---------------------------------------------------------------- never a miss

  lemma {:induction false} MatchSelf(v: string, p: string, t: string)
    requires '\\' !in v
    requires Match(p, t)
    ensures Match(v + p, v + t)
  {
    if v == "" {
      assert v + p == p && v + t == t;
    } else {
      MatchSelf(v[1..], p, t);
      assert (v + p)[1..] == v[1..] + p;
      assert (v + t)[1..] == v[1..] + t;
    }
  }

  lemma LowerParts(s: string, k: nat)
    requires k <= |s|
    ensures LowerAll(s[k..]) == LowerAll(s)[k..]
    ensures LowerAll(s[..k]) == LowerAll(s)[..k]
  {}

  lemma LowerPattern(op: TextOp, v: string)
    ensures LowerAll(Pattern(op, v)) == Pattern(op, LowerAll(v))
  {}

  lemma LowerHolds(op: TextOp, s: string, v: string)
    requires Holds(op, s, v)
    ensures Holds(op, LowerAll(s), LowerAll(v))
    decreases op.Anywhere?
  {
    match op
    case Prefix => LowerParts(s, |v|);
    case Suffix => LowerParts(s, |s| - |v|);
    case Anywhere =>
      var k :| 0 <= k <= |s| && StartsWith(s[k..], v);
      LowerParts(s, k);
      LowerHolds(Prefix, s[k..], v);
      assert StartsWith(LowerAll(s)[k..], LowerAll(v));
  }

  /** The unescaped pattern never misses a row that the in-memory test accepts. */
  lemma NeverMisses(op: TextOp, s: string, v: string)
    requires '\\' !in v
    requires Holds(op, s, v)
    ensures ILike(s, Pattern(op, v))
  {
    var s', v' := LowerAll(s), LowerAll(v);
    LowerHolds(op, s, v);
    LowerPattern(op, v);
    assert '\\' !in v';
    match op
    case Prefix =>
      PrefixMatches(s', v');
    case Anywhere =>
      var k :| 0 <= k <= |s'| && StartsWith(s'[k..], v');
      PrefixMatches(s'[k..], v');
      assert Pattern(op, v') == "%" + (v' + "%");
      MatchPercent(v' + "%", s');
    case Suffix =>
      assert v' + "" == v';
      MatchSelf(v', "", "");
      MatchPercent(v', s');
  }

  lemma PrefixMatches(s: string, v: string)
    requires '\\' !in v && StartsWith(s, v)
    ensures Match(v + "%", s)
  {
    MatchEverything(s[|v|..]);
    MatchSelf(v, "%", s[|v|..]);
    assert s == v + s[|v|..];
  }

  // ---------------------------------------------------------------- exactly when the two agree

  /** A shortest text the pattern accepts: wildcards and escapes dropped, `_` read as a letter in lower case. */
  function Shortest(p: string): string {
    if p == "" then ""
    else if p[0] == '%' then Shortest(p[1..])
    else if p[0] == '_' then [LOWER('x')] + Shortest(p[1..])
    else if p[0] == '\\' then if |p| > 1 then [p[1]] + Shortest(p[2..]) else ""
    else [p[0]] + Shortest(p[1..])
  }

  lemma {:induction false} ShortestMatches(p: string)
    requires WellFormed(p)
    ensures Match(p, Shortest(p))
    ensures Folded(p) ==> Folded(Shortest(p))
    decreases |p|
  {
    if p != "" {
      if p[0] == '\\' {
        ShortestMatches(p[2..]);
        LowerParts(p, 2);
        assert LowerAll(p)[1] == LOWER(p[1]);
      } else {
        ShortestMatches(p[1..]);
        LowerParts(p, 1);
        assert LowerAll(p)[0] == LOWER(p[0]);
      }
    }
  }

  /** `Shortest` is no longer than the operand, and is the operand only when that is plain. */
  lemma {:induction false} ShortestBound(v: string, tail: string)
    requires tail == "" || tail == "%"
    ensures |Shortest(v + tail)| <= |v|
    ensures Shortest(v + tail) == v ==> Plain(v)
    decreases |v|
  {
    if v == "" {
      assert v + tail == tail;
    } else {
      assert (v + tail)[1..] == v[1..] + tail;
      ShortestBound(v[1..], tail);
      if v[0] == '\\' && |v| > 1 {
        assert (v + tail)[2..] == v[2..] + tail;
        ShortestBound(v[2..], tail);
      } else if v[0] == '\\' {
        assert v + tail == "\\" + tail;
      } else {
        assert v == [v[0]] + v[1..];
      }
    }
  }

  lemma HoldsBound(op: TextOp, s: string, v: string)
    requires Holds(op, s, v) && |s| <= |v|
    ensures s == v
  {}

  lemma {:induction false} PlainWellFormed(v: string, tail: string)
    requires '\\' !in v && WellFormed(tail)
    ensures WellFormed(v + tail)
  {
    if v == "" {
      assert v + tail == tail;
    } else {
      PlainWellFormed(v[1..], tail);
      assert (v + tail)[1..] == v[1..] + tail;
    }
  }

  lemma {:induction false} LowerWellFormed(p: string)
    ensures WellFormed(LowerAll(p)) <==> WellFormed(p)
    decreases |p|
  {
    if p != "" {
      LowerParts(p, 1);
      if p[0] == '\\' && |p| > 1 {
        LowerParts(p, 2);
        LowerWellFormed(p[2..]);
      } else {
        LowerWellFormed(p[1..]);
      }
    }
  }

  /** Running the pattern on case-folded text: the query is accepted and keeps what the test accepts. */
  ghost predicate AgreesOnFoldedText(op: TextOp, v: string) {
    && WellFormed(Pattern(op, v))
    && forall s | Folded(s) :: ILike(s, Pattern(op, v)) <==> Holds(op, s, v)
  }

  /** The exact condition on the operand: no wildcard, no escape character, nothing that lower case changes. */
  lemma AgreesIffPlain(op: TextOp, v: string)
    ensures AgreesOnFoldedText(op, v) <==> Plain(v) && Folded(v)
  {
    LowerPattern(op, v);
    if Plain(v) && Folded(v) {
      PlainWellFormed(v, "%");
      PlainWellFormed(v, "");
      assert v + "" == v;
      assert op.Suffix? ==> Pattern(op, v)[1..] == v;
      assert op.Anywhere? ==> Pattern(op, v)[1..] == v + "%";
      forall s | Folded(s) ensures ILike(s, Pattern(op, v)) <==> Holds(op, s, v) {
        PlainPatternExact(op, v, s);
      }
    } else if WellFormed(Pattern(op, v)) {
      var v' := LowerAll(v);
      var p := Pattern(op, v');
      LowerWellFormed(Pattern(op, v));
      LowerLowered(Pattern(op, v));
      ShortestMatches(p);
      var s := Shortest(p);
      var tail := if op.Suffix? then "" else "%";
      assert s == Shortest(v' + tail) by {
        assert v' + "" == v';
        assert op.Suffix? ==> p[1..] == v';
        assert op.Anywhere? ==> p[1..] == v' + "%";
      }
      ShortestBound(v', tail);
      if Holds(op, s, v) {
        HoldsBound(op, s, v);
        assert false;
      }
      assert ILike(s, Pattern(op, v)) && !Holds(op, s, v);
    }
  }
}
