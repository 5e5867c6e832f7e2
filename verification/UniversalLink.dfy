/** Universal links, printed `id@code` and read back at the last `@`. */
module UniversalLink {
  import opened Wrappers
  import opened Values

  function Print(id: string, code: string): string {
    id + "@" + code
  }

  /** `lastIndexOf("@")`, with None for -1. */
  function LastAt(s: string): (position: Option<nat>)
    ensures position.Some? ==> position.value < |s| && s[position.value] == '@' && '@' !in s[position.value + 1..]
    ensures position.None? <==> '@' !in s
  {
    if s == "" then None
    else
      assert s == s[..|s| - 1] + [s[|s| - 1]];
      if s[|s| - 1] == '@' then Some(|s| - 1) else LastAt(s[..|s| - 1])
  }

  /** The identifier and class code of a link, if its delimiter is not the first character. */
  function Parse(s: string): Option<(string, string)> {
    var position := LastAt(s);
    if position.Some? && position.value > 0 then Some((s[..position.value], s[position.value + 1..])) else None
  }

  /**
   * A link reads back as an id and a code exactly when it is their print, the id non-empty and the code free of
   * `@`.
   */
  lemma ParseIff(s: string, id: string, code: string)
    ensures Parse(s) == Some((id, code)) <==> s == Print(id, code) && id != "" && '@' !in code
  {
    var position := LastAt(s);
    if Parse(s) == Some((id, code)) {
      assert s == s[..position.value] + [s[position.value]] + s[position.value + 1..];
    }
    if s == Print(id, code) && id != "" && '@' !in code {
      LastAtOfPrint(id, code);
      assert s[..|id|] == id && s[|id| + 1..] == code;
    }
  }

  lemma {:induction false} LastAtIs(s: string, k: nat)
    requires k < |s| && s[k] == '@' && '@' !in s[k + 1..]
    ensures LastAt(s) == Some(k)
  {
    if k < |s| - 1 {
      var front := s[..|s| - 1];
      assert s[k + 1..] == front[k + 1..] + [s[|s| - 1]];
      LastAtIs(front, k);
    }
  }

  lemma LastAtOfPrint(id: string, code: string)
    requires '@' !in code
    ensures LastAt(Print(id, code)) == Some(|id|)
  {
    assert Print(id, code)[|id| + 1..] == code;
    LastAtIs(Print(id, code), |id|);
  }

  lemma RoundTripIff(id: string, code: string)
    ensures Parse(Print(id, code)) == Some((id, code)) <==> id != "" && '@' !in code
  {
    ParseIff(Print(id, code), id, code);
  }

  function FirstAt(s: string): nat {
    if s == "" || s[0] == '@' then 0 else 1 + FirstAt(s[1..])
  }

  lemma {:induction false} FirstAtOfPrint(id: string, code: string)
    requires '@' !in id
    ensures FirstAt(Print(id, code)) == |id|
  {
    if id != "" {
      assert Print(id, code)[1..] == Print(id[1..], code);
      FirstAtOfPrint(id[1..], code);
    }
  }

  /** Ids free of `@`, or codes free of it: the printed link determines the object, even for an empty id. */
  lemma PrintInjective(id: string, code: string, id': string, code': string)
    requires ('@' !in id && '@' !in id') || ('@' !in code && '@' !in code')
    ensures Print(id, code) == Print(id', code') <==> id == id' && code == code'
  {
    if Print(id, code) == Print(id', code') {
      if '@' !in id && '@' !in id' {
        FirstAtOfPrint(id, code);
        FirstAtOfPrint(id', code');
      } else {
        LastAtOfPrint(id, code);
        LastAtOfPrint(id', code');
      }
      assert |id| == |id'|;
      assert Print(id, code)[|id| + 1..] == code && Print(id', code')[|id'| + 1..] == code';
      assert Print(id, code)[..|id|] == id && Print(id', code')[..|id'|] == id';
    }
  }

  /** Ids that `Long.valueOf` has read print different links for different texts, whatever the codes are. */
  lemma ReadIdsPrintApart(id: string, code: string, id': string, code': string)
    requires ParseNum(LongKind, id).Ok? && ParseNum(LongKind, id').Ok?
    ensures Print(id, code) == Print(id', code') <==> id == id' && code == code'
  {
    ParsedIsPlain(LongKind, id);
    ParsedIsPlain(LongKind, id');
    PrintInjective(id, code, id', code');
  }

  /** The titles of a class's objects: a class of the database source asks for them by number, another by the text. */
  datatype LinkedClass = Stored(titles: map<int, string>) | Other(titlesByText: map<string, string>)

  function TitleOf(c: LinkedClass, id: string): Result<Option<string>> {
    match c
    case Stored(titles) =>
      var n :- ParseNum(LongKind, id);
      Ok(if n in titles then Some(titles[n]) else None)
    case Other(titles) => Ok(if id in titles then Some(titles[id]) else None)
  }

  /** What a table cell shows: the linked object's title, and the stored text when there is none to show. */
  function ValueByTable(value: Option<string>, classes: map<string, LinkedClass>): Result<Option<string>> {
    if value.None? then Ok(None)
    else
      var link := Parse(value.value);
      if link.None? || link.value.1 == "" || link.value.1 !in classes then Ok(value)
      else
        var title :- TitleOf(classes[link.value.1], link.value.0);
        Ok(if title.Some? then title else value)
  }

  /**
   * A link printed for an existing object of a known class shows that object's title, and one printed for
   * an id that is no number fails for a class of the database source; exactly such links fail.
   */
  lemma PrintedLinkShows(id: string, code: string, classes: map<string, LinkedClass>)
    requires id != "" && '@' !in code && code != "" && code in classes
    ensures var shown := ValueByTable(Some(Print(id, code)), classes);
            match classes[code]
            case Other(titles) => shown == Ok(Some(if id in titles then titles[id] else Print(id, code)))
            case Stored(titles) =>
              var n := ParseNum(LongKind, id);
              if n.Err? then shown.Err?
              else shown == Ok(Some(if n.value in titles then titles[n.value] else Print(id, code)))
  {
    RoundTripIff(id, code);
  }

  lemma ValueRaisesIff(value: string, classes: map<string, LinkedClass>)
    ensures ValueByTable(Some(value), classes).Err? <==>
            exists id, code | id != "" && '@' !in code && code != "" && code in classes ::
              value == Print(id, code) && classes[code].Stored? && ParseNum(LongKind, id).Err?
  {
    var link := Parse(value);
    if link.Some? {
      ParseIff(value, link.value.0, link.value.1);
    }
    forall id, code | id != "" && '@' !in code && value == Print(id, code) ensures link == Some((id, code)) {
      ParseIff(value, id, code);
    }
  }

  /** Any other value is shown as it is: text that is no link of a known class, and no value at all. */
  lemma OtherTextShown(value: string, classes: map<string, LinkedClass>)
    requires !exists id, code | id != "" && '@' !in code && code != "" && code in classes :: value == Print(id, code)
    ensures ValueByTable(Some(value), classes) == Ok(Some(value)) && ValueByTable(None, classes) == Ok(None)
  {
    var link := Parse(value);
    if link.Some? {
      ParseIff(value, link.value.0, link.value.1);
    }
  }

  /** The title of the object itself, when the link was printed from its number. */
  lemma ShowsOwnTitle(n: int, code: string, classes: map<string, LinkedClass>)
    requires InRange(LongKind, n) && '@' !in code && code != "" && code in classes
    requires classes[code].Stored? && n in classes[code].titles
    ensures ValueByTable(Some(Print(ShowInt(n), code)), classes) == Ok(Some(classes[code].titles[n]))
  {
    ParseShowInt(LongKind, n);
    RoundTripIff(ShowInt(n), code);
  }
}
